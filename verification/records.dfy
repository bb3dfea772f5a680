/**
 * The delivery table: one `Row` per record of the loaded CSV file, the
 * columns the cleaning step looks for, and the derived `Record` that
 * carries the two features added to every row.
 */
module Records {
  import opened Wrappers

  /** The five categorical columns of `cat_cols`. */
  datatype Column = Weather | Traffic | Vehicle | Area | Category

  /** `cat_cols`, in the order the cleaning loop and the filter chain visit them. */
  const CatCols: seq<Column> := [Weather, Traffic, Vehicle, Area, Category]

  /** Position of a column in `CatCols`. */
  function Index(col: Column): (k: nat)
    ensures k < |CatCols| && CatCols[k] == col
  {
    match col
    case Weather => 0
    case Traffic => 1
    case Vehicle => 2
    case Area => 3
    case Category => 4
  }

  /** `CatCols` lists every column once. */
  lemma CatColsDistinct(k: nat)
    requires k < |CatCols|
    ensures Index(CatCols[k]) == k
  {
    assert k == 0 || k == 1 || k == 2 || k == 3 || k == 4;
  }

  /** The column header as it appears in the CSV file. */
  function ColumnName(col: Column): string {
    match col
    case Weather => "Weather"
    case Traffic => "Traffic"
    case Vehicle => "Vehicle"
    case Area => "Area"
    case Category => "Category"
  }

  /**
   * One raw record. Every field but `time` may be null (`None`);
   * `time` is Delivery_Time in minutes.
   */
  datatype Row = Row(
    weather: Option<string>,
    traffic: Option<string>,
    vehicle: Option<string>,
    area: Option<string>,
    category: Option<string>,
    rating: Option<real>,
    age: Option<real>,
    time: real)
  {
    /** The value of categorical column `col`. */
    function Cat(col: Column): Option<string> {
      match col
      case Weather => weather
      case Traffic => traffic
      case Vehicle => vehicle
      case Area => area
      case Category => category
    }

    /** This row with categorical column `col` set to `v` and nothing else changed. */
    function WithCat(col: Column, v: Option<string>): (r: Row)
      ensures r.Cat(col) == v
      ensures forall c :: c != col ==> r.Cat(c) == Cat(c)
      ensures r.rating == rating && r.age == age && r.time == time
    {
      match col
      case Weather => this.(weather := v)
      case Traffic => this.(traffic := v)
      case Vehicle => this.(vehicle := v)
      case Area => this.(area := v)
      case Category => this.(category := v)
    }
  }

  /** Two rows that agree on every categorical column and on the numeric fields are equal. */
  lemma RowsEqual(a: Row, b: Row)
    requires forall c :: a.Cat(c) == b.Cat(c)
    requires a.rating == b.rating && a.age == b.age && a.time == b.time
    ensures a == b
  {
    assert a.Cat(Weather) == b.Cat(Weather);
    assert a.Cat(Traffic) == b.Cat(Traffic);
    assert a.Cat(Vehicle) == b.Cat(Vehicle);
    assert a.Cat(Area) == b.Cat(Area);
    assert a.Cat(Category) == b.Cat(Category);
  }

  /** Which of the columns the cleaning step looks for exist in the loaded file. */
  datatype Schema = Schema(cats: set<Column>, hasRating: bool, hasAge: bool, hasTime: bool)

  /** A row after feature derivation: the row plus `Is_Late` and `Agent_Age_Group`. */
  datatype Record = Record(row: Row, isLate: bool, ageGroup: string)

  /** The Delivery_Time column. */
  function Times(rows: seq<Row>): (ts: seq<real>)
    ensures |ts| == |rows|
    ensures forall i :: 0 <= i < |rows| ==> ts[i] == rows[i].time
  {
    seq(|rows|, i requires 0 <= i < |rows| => rows[i].time)
  }

  /** The Agent_Rating column. */
  function Ratings(rows: seq<Row>): (rs: seq<Option<real>>)
    ensures |rs| == |rows|
    ensures forall i :: 0 <= i < |rows| ==> rs[i] == rows[i].rating
  {
    seq(|rows|, i requires 0 <= i < |rows| => rows[i].rating)
  }

  /** The Agent_Age column. */
  function Ages(rows: seq<Row>): (ags: seq<Option<real>>)
    ensures |ags| == |rows|
    ensures forall i :: 0 <= i < |rows| ==> ags[i] == rows[i].age
  {
    seq(|rows|, i requires 0 <= i < |rows| => rows[i].age)
  }

  /** The Delivery_Time column of derived records. */
  function RecordTimes(recs: seq<Record>): (ts: seq<real>)
    ensures |ts| == |recs|
    ensures forall i :: 0 <= i < |recs| ==> ts[i] == recs[i].row.time
  {
    seq(|recs|, i requires 0 <= i < |recs| => recs[i].row.time)
  }

  /** Number of records whose `Is_Late` flag is set. */
  function CountLate(recs: seq<Record>): (n: nat)
    ensures n <= |recs|
    ensures n == 0 <==> forall i :: 0 <= i < |recs| ==> !recs[i].isLate
  {
    if recs == [] then 0
    else (if recs[0].isLate then 1 else 0) + CountLate(recs[1..])
  }
}
