/**
 * One row of the waste-collection table (`AwsRow` in
 * crawlTrashCollections.py): a street name, four schedule codes and the id
 * of the matched street, and the CSV lines of its collection events.
 */
module AwsRows {
  import opened Wrappers
  import opened Text
  import opened Calendar
  import opened Schedule

  /** The year that `getCSV` expands every schedule code for. */
  const CollectionYear := 2015

  // ---------------------------------------------------------------------
  // __setattr__

  /**
   * `re.sub('\s+', ' ', value).strip()`: what every attribute assignment
   * stores. No whitespace is left at either end, every inner run of
   * whitespace is one plain space, and the other characters are kept in
   * order.
   */
  function Squash(value: string): (r: string)
    ensures IsTrimmed(r) && SingleSpaced(r)
    ensures NonSpace(r) == NonSpace(value)
  {
    CollapseSpacesSingle(value);
    StripSingleSpaced(CollapseSpaces(value));
    CollapseKeepsNonSpace(value);
    StripKeepsNonSpace(CollapseSpaces(value));
    Strip(CollapseSpaces(value))
  }

  /** The strings that `Squash` leaves as they are. */
  predicate Squashed(s: string) {
    IsTrimmed(s) && SingleSpaced(s)
  }

  /** A squashed string is its own squash, so assigning a field its own value changes nothing. */
  lemma SquashFixed(s: string)
    requires Squashed(s)
    ensures Squash(s) == s
  {
    CollapseSingleSpaced(s);
    StripTrimmed(s);
  }

  /** Squashing twice is squashing once. */
  lemma SquashIdempotent(value: string)
    ensures Squash(Squash(value)) == Squash(value)
  {
    SquashFixed(Squash(value));
  }

  // ---------------------------------------------------------------------
  // The row

  /** The attributes that the crawler assigns. */
  datatype Field = Street | YardWaste | ResidualWaste | BioWaste | GreenBinAndYellowBag | GeoId

  /** The attribute values of a row. */
  datatype RowFields = RowFields(
    street: string,
    yardWaste: string,
    residualWaste: string,
    bioWaste: string,
    greenBinAndYellowBag: string,
    geoId: string)

  function Get(row: RowFields, field: Field): string {
    match field
    case Street => row.street
    case YardWaste => row.yardWaste
    case ResidualWaste => row.residualWaste
    case BioWaste => row.bioWaste
    case GreenBinAndYellowBag => row.greenBinAndYellowBag
    case GeoId => row.geoId
  }

  /** The row with one attribute replaced: the assigned one reads `value`, the others are unchanged. */
  function With(row: RowFields, field: Field, value: string): (r: RowFields)
    ensures Get(r, field) == value
    ensures forall g :: g != field ==> Get(r, g) == Get(row, g)
  {
    match field
    case Street => row.(street := value)
    case YardWaste => row.(yardWaste := value)
    case ResidualWaste => row.(residualWaste := value)
    case BioWaste => row.(bioWaste := value)
    case GreenBinAndYellowBag => row.(greenBinAndYellowBag := value)
    case GeoId => row.(geoId := value)
  }

  /** Every attribute is squashed. */
  predicate AllSquashed(row: RowFields) {
    forall f: Field :: Squashed(Get(row, f))
  }

  /** Assigning through `__setattr__` keeps every attribute squashed. */
  lemma AssignKeepsSquashed(row: RowFields, field: Field, value: string)
    requires AllSquashed(row)
    ensures AllSquashed(With(row, field, Squash(value)))
  {
  }

  /** The empty string squashes to itself. */
  lemma EmptySquashed()
    ensures Squash("") == "" && AllSquashed(EmptyRow)
  {
    assert NonSpace("") == [];
  }

  /** The attributes set by `AwsRow()`. */
  const EmptyRow := RowFields("", "", "", "", "", "")

  class AwsRow {
    var street: string
    var yardWaste: string
    var residualWaste: string
    var bioWaste: string
    var greenBinAndYellowBag: string
    var geoId: string

    function Fields(): RowFields
      reads this
    {
      RowFields(street, yardWaste, residualWaste, bioWaste, greenBinAndYellowBag, geoId)
    }

    /** `AwsRow()`: every attribute is assigned `''`, which squashes to itself. */
    constructor ()
      ensures Fields() == EmptyRow && AllSquashed(Fields())
    {
      var empty := Squash("");
      EmptySquashed();
      street, yardWaste, residualWaste := empty, empty, empty;
      bioWaste, greenBinAndYellowBag, geoId := empty, empty, empty;
    }

    /** `setattr(row, name, value)`: the attribute is assigned the squashed value, the others keep theirs. */
    method Set(field: Field, value: string)
      modifies this
      ensures Fields() == With(old(Fields()), field, Squash(value))
    {
      Assign(field, Squash(value));
    }

    /** The plain assignment that `__setattr__` delegates to. */
    method Assign(field: Field, value: string)
      modifies this
      ensures Fields() == With(old(Fields()), field, value)
    {
      match field
      case Street => street := value;
      case YardWaste => yardWaste := value;
      case ResidualWaste => residualWaste := value;
      case BioWaste => bioWaste := value;
      case GreenBinAndYellowBag => greenBinAndYellowBag := value;
      case GeoId => geoId := value;
    }

    /** `getCSV()`: the CSV lines of the row's events, or the exception an expander raises. */
    method GetCsv() returns (r: Result<string, ExpandError>)
      ensures r == RowCsv(Fields())
    {
      var yard := IterDayMonth(yardWaste, CollectionYear);
      if yard.Err? {
        return Err(yard.error);
      }
      var other := IterWeekly(residualWaste, CollectionYear);
      var organic := IterWeekly(bioWaste, CollectionYear);
      var paper := IterBiweekly(greenBinAndYellowBag, CollectionYear);
      if paper.Err? {
        return Err(paper.error);
      }
      var plastic := IterBiweekly(greenBinAndYellowBag, CollectionYear);
      assert plastic == paper;
      var events := Chain(yard.value, other, organic, paper.value);
      assert RowEvents(Fields()) == Ok(events);
      return Ok(Join(CsvLines(events, geoId), "\n"));
    }
  }

  // ---------------------------------------------------------------------
  // getCSV

  /** The collection categories, in the order `getCSV` chains them. */
  datatype Category = Yard | Residual | Organic | Paper | Plastic

  /** The `type` column. */
  function CategoryName(c: Category): string {
    match c
    case Yard => "yard_waste"
    case Residual => "other"
    case Organic => "organic"
    case Paper => "paper"
    case Plastic => "plastic"
  }

  /** The position of a category in the chain. */
  function Rank(c: Category): nat {
    match c
    case Yard => 0
    case Residual => 1
    case Organic => 2
    case Paper => 3
    case Plastic => 4
  }

  /** One collection: a category and a date ordinal. */
  datatype Event = Event(category: Category, date: int)

  function Tagged(c: Category, dates: seq<int>): (events: seq<Event>)
    ensures |events| == |dates|
    ensures forall i :: 0 <= i < |dates| ==> events[i] == Event(c, dates[i])
  {
    seq(|dates|, i requires 0 <= i < |dates| => Event(c, dates[i]))
  }

  /**
   * The events of a row, in `getCSV`'s chain order: yard waste from the
   * day/month code, residual and organic waste from weekly codes, paper
   * and plastic both from the one biweekly code. The first expander that
   * raises decides the exception.
   */
  function RowEvents(row: RowFields): (r: Result<seq<Event>, ExpandError>)
    ensures r.Ok? ==> forall i :: 0 <= i < |r.value| ==> InYear(r.value[i].date, CollectionYear)
  {
    match DayMonth(row.yardWaste, CollectionYear)
    case Err(e) => Err(e)
    case Ok(yard) =>
      match Biweekly(row.greenBinAndYellowBag, CollectionYear)
      case Err(e) => Err(e)
      case Ok(bins) =>
        var other := Weekly(row.residualWaste, CollectionYear);
        var organic := Weekly(row.bioWaste, CollectionYear);
        DayMonthInYear(row.yardWaste, CollectionYear);
        BiweeklyInYear(row.greenBinAndYellowBag, CollectionYear);
        WeeklyInYear(row.residualWaste, CollectionYear);
        WeeklyInYear(row.bioWaste, CollectionYear);
        ChainInYear(yard, other, organic, bins, CollectionYear);
        Ok(Chain(yard, other, organic, bins))
  }

  /** The `itertools.chain` of the five categories; paper and plastic share their dates. */
  function Chain(yard: seq<int>, other: seq<int>, organic: seq<int>, bins: seq<int>): seq<Event> {
    Tagged(Yard, yard) + Tagged(Residual, other) + Tagged(Organic, organic) + Tagged(Paper, bins) + Tagged(Plastic, bins)
  }

  /** Dates that all lie in one year. */
  predicate AllIn(dates: seq<int>, year: int) {
    forall i :: 0 <= i < |dates| ==> InYear(dates[i], year)
  }

  lemma WeeklyInYear(token: string, year: int)
    requires ExpandableYear(year)
    ensures AllIn(Weekly(token, year), year)
  {
  }

  lemma ChainInYear(yard: seq<int>, other: seq<int>, organic: seq<int>, bins: seq<int>, year: int)
    requires AllIn(yard, year) && AllIn(other, year) && AllIn(organic, year) && AllIn(bins, year)
    ensures var events := Chain(yard, other, organic, bins);
      forall i :: 0 <= i < |events| ==> InYear(events[i].date, year)
  {
    var events := Chain(yard, other, organic, bins);
    var n1 := |yard|;
    var n2 := n1 + |other|;
    var n3 := n2 + |organic|;
    var n4 := n3 + |bins|;
    forall i | 0 <= i < |events|
      ensures InYear(events[i].date, year)
    {
      if i < n1 {
        assert events[i].date == yard[i];
      } else if i < n2 {
        assert events[i].date == other[i - n1];
      } else if i < n3 {
        assert events[i].date == organic[i - n2];
      } else if i < n4 {
        assert events[i].date == bins[i - n3];
      } else {
        assert events[i].date == bins[i - n4];
      }
    }
  }

  /** The dates of the events of one category, in order. */
  function DatesOf(events: seq<Event>, c: Category): (dates: seq<int>)
    ensures |dates| <= |events|
  {
    if events == [] then []
    else (if events[0].category == c then [events[0].date] else []) + DatesOf(events[1..], c)
  }

  lemma {:induction false} DatesOfConcat(a: seq<Event>, b: seq<Event>, c: Category)
    ensures DatesOf(a + b, c) == DatesOf(a, c) + DatesOf(b, c)
    decreases |a|
  {
    if a == [] {
      assert a + b == b;
      assert [] + DatesOf(b, c) == DatesOf(b, c);
    } else {
      var head := if a[0].category == c then [a[0].date] else [];
      assert (a + b)[0] == a[0] && (a + b)[1..] == a[1..] + b;
      assert DatesOf(a + b, c) == head + DatesOf(a[1..] + b, c);
      DatesOfConcat(a[1..], b, c);
      ConcatAssoc(head, DatesOf(a[1..], c), DatesOf(b, c));
    }
  }

  lemma {:induction false} DatesOfTagged(d: Category, dates: seq<int>, c: Category)
    ensures DatesOf(Tagged(d, dates), c) == if c == d then dates else []
    decreases |dates|
  {
    if dates != [] {
      assert Tagged(d, dates)[1..] == Tagged(d, dates[1..]);
      DatesOfTagged(d, dates[1..], c);
    }
  }

  /** The dates that each category of a row collects on; paper and plastic collect on the same ones. */
  lemma RowEventDates(row: RowFields)
    requires RowEvents(row).Ok?
    ensures var events := RowEvents(row).value;
      && DatesOf(events, Yard) == DayMonth(row.yardWaste, CollectionYear).value
      && DatesOf(events, Residual) == Weekly(row.residualWaste, CollectionYear)
      && DatesOf(events, Organic) == Weekly(row.bioWaste, CollectionYear)
      && DatesOf(events, Paper) == Biweekly(row.greenBinAndYellowBag, CollectionYear).value
      && DatesOf(events, Plastic) == DatesOf(events, Paper)
  {
    var yard := DayMonth(row.yardWaste, CollectionYear).value;
    var other := Weekly(row.residualWaste, CollectionYear);
    var organic := Weekly(row.bioWaste, CollectionYear);
    var bins := Biweekly(row.greenBinAndYellowBag, CollectionYear).value;
    assert RowEvents(row).value == Chain(yard, other, organic, bins);
    ChainDates(yard, other, organic, bins);
  }

  lemma ChainDates(yard: seq<int>, other: seq<int>, organic: seq<int>, bins: seq<int>)
    ensures var events := Chain(yard, other, organic, bins);
      && DatesOf(events, Yard) == yard
      && DatesOf(events, Residual) == other
      && DatesOf(events, Organic) == organic
      && DatesOf(events, Paper) == bins
      && DatesOf(events, Plastic) == bins
  {
    var a := Tagged(Yard, yard);
    var b := Tagged(Residual, other);
    var c := Tagged(Organic, organic);
    var d := Tagged(Paper, bins);
    var e := Tagged(Plastic, bins);
    forall cat: Category
      ensures DatesOf(a + b + c + d + e, cat)
        == DatesOf(a, cat) + DatesOf(b, cat) + DatesOf(c, cat) + DatesOf(d, cat) + DatesOf(e, cat)
    {
      DatesOfConcat(a + b + c + d, e, cat);
      DatesOfConcat(a + b + c, d, cat);
      DatesOfConcat(a + b, c, cat);
      DatesOfConcat(a, b, cat);
    }
    forall cat: Category
      ensures DatesOf(a, cat) == if cat == Yard then yard else []
      ensures DatesOf(b, cat) == if cat == Residual then other else []
      ensures DatesOf(c, cat) == if cat == Organic then organic else []
      ensures DatesOf(d, cat) == if cat == Paper then bins else []
      ensures DatesOf(e, cat) == if cat == Plastic then bins else []
    {
      DatesOfTagged(Yard, yard, cat);
      DatesOfTagged(Residual, other, cat);
      DatesOfTagged(Organic, organic, cat);
      DatesOfTagged(Paper, bins, cat);
      DatesOfTagged(Plastic, bins, cat);
    }
  }

  /** The events come grouped by category, in chain order. */
  lemma RowEventsInOrder(row: RowFields)
    requires RowEvents(row).Ok?
    ensures var events := RowEvents(row).value;
      forall i, j :: 0 <= i < j < |events| ==> Rank(events[i].category) <= Rank(events[j].category)
  {
    var yard := DayMonth(row.yardWaste, CollectionYear).value;
    var other := Weekly(row.residualWaste, CollectionYear);
    var organic := Weekly(row.bioWaste, CollectionYear);
    var bins := Biweekly(row.greenBinAndYellowBag, CollectionYear).value;
    assert RowEvents(row).value == Chain(yard, other, organic, bins);
    ChainInOrder(yard, other, organic, bins);
  }

  lemma ChainInOrder(yard: seq<int>, other: seq<int>, organic: seq<int>, bins: seq<int>)
    ensures var events := Chain(yard, other, organic, bins);
      forall i, j :: 0 <= i < j < |events| ==> Rank(events[i].category) <= Rank(events[j].category)
  {
    var events := Chain(yard, other, organic, bins);
    var n1 := |yard|;
    var n2 := n1 + |other|;
    var n3 := n2 + |organic|;
    var n4 := n3 + |bins|;
    forall i | 0 <= i < |events|
      ensures Rank(events[i].category) == if i < n1 then 0 else if i < n2 then 1 else if i < n3 then 2 else if i < n4 then 3 else 4
    {
    }
  }

  /**
   * A row's events fail exactly when its day/month code or its biweekly
   * code raises, and the day/month code, expanded first, decides which
   * exception.
   */
  lemma RowEventsFail(row: RowFields)
    ensures RowEvents(row).Err? <==>
      DayMonth(row.yardWaste, CollectionYear).Err? || Biweekly(row.greenBinAndYellowBag, CollectionYear).Err?
    ensures DayMonth(row.yardWaste, CollectionYear).Err? ==>
      RowEvents(row) == Err(DayMonth(row.yardWaste, CollectionYear).error)
  {
  }

  /** One CSV line: `"type","YYYY-MM-DD",geoId`. */
  function CsvLine(e: Event, geoId: string): string
    requires InYear(e.date, CollectionYear)
  {
    "\"" + CategoryName(e.category) + "\",\"" + IsoText(DateIn(CollectionYear, e.date)) + "\"," + geoId
  }

  function CsvLines(events: seq<Event>, geoId: string): (lines: seq<string>)
    requires forall i :: 0 <= i < |events| ==> InYear(events[i].date, CollectionYear)
    ensures |lines| == |events|
    ensures forall i :: 0 <= i < |events| ==> lines[i] == CsvLine(events[i], geoId)
  {
    seq(|events|, i requires 0 <= i < |events| => CsvLine(events[i], geoId))
  }

  /** What `getCSV()` returns: the event lines joined by line breaks. */
  function RowCsv(row: RowFields): Result<string, ExpandError> {
    match RowEvents(row)
    case Err(e) => Err(e)
    case Ok(events) => Ok(Join(CsvLines(events, row.geoId), "\n"))
  }

  /**
   * The text of a row splits back into one line per event, each naming the
   * event's category and date and the row's location id, as long as the
   * location id has no line break (a squashed one never has).
   */
  lemma RowCsvLines(row: RowFields)
    requires RowEvents(row).Ok? && RowEvents(row).value != [] && '\n' !in row.geoId
    ensures Split(RowCsv(row).value, '\n') == CsvLines(RowEvents(row).value, row.geoId)
  {
    var events := RowEvents(row).value;
    var lines := CsvLines(events, row.geoId);
    assert RowCsv(row).value == Join(lines, "\n");
    forall i | 0 <= i < |lines|
      ensures '\n' !in lines[i]
    {
      CsvLineNoBreak(events[i], row.geoId);
    }
    SplitJoin(lines, '\n');
  }

  lemma CsvLineNoBreak(e: Event, geoId: string)
    requires InYear(e.date, CollectionYear) && '\n' !in geoId
    ensures '\n' !in CsvLine(e, geoId)
  {
    var iso := IsoText(DateIn(CollectionYear, e.date));
    assert '\n' !in iso;
    CategoryNameNoBreak(e.category);
  }

  lemma CategoryNameNoBreak(c: Category)
    ensures '\n' !in CategoryName(c)
  {
    match c
    case Yard =>
    case Residual =>
    case Organic =>
    case Paper =>
    case Plastic =>
  }

  /** A squashed location id never holds a line break. */
  lemma SquashedHasNoBreak(s: string)
    requires Squashed(s)
    ensures '\n' !in s
  {
  }

  /** `getCSVHeader()`. */
  const CsvHeader := "type,date,location_id"
}
