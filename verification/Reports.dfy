/** The cabinet's report: totals of completed bookings, their breakdown by service and
    by box, and the revenue time series. */
module Reports {
  import opened Bookings
  import opened Clock
  import opened Iteration
  import opened Planning
  import opened Sorting
  import opened Sums

  datatype Row = Row(status: Status, box: int, isOverflow: bool, start: Instant, end: Instant,
                     items: seq<Item>, primary: Item)

  type Prices = map<OptionId, int>

  datatype Agg = Agg(cars: int, revenue: int, minutes: int)

  const NONE: Agg := Agg(0, 0, 0)

  /** A booking's services; one stored without items has its primary service. */
  function ItemsOf(row: Row): seq<Item> {
    if row.items != [] then row.items else [row.primary]
  }

  function PriceOf(prices: Prices, option: OptionId): int {
    if option in prices then prices[option] else 0
  }

  /** Division rounding towards zero, for a positive divisor. */
  function TruncDiv(a: int, b: int): int
    requires b > 0
  {
    if a >= 0 then a / b else -((-a) / b)
  }

  // ----- what a row contributes -----

  function ItemPrice(prices: Prices): Item -> int {
    (it: Item) => PriceOf(prices, it.option)
  }

  function BookingPrice(prices: Prices, row: Row): int {
    Sum(ItemPrice(prices), ItemsOf(row))
  }

  function MinutesOf(row: Row): int {
    TruncDiv(row.end - row.start, MINUTE)
  }

  /** A line of the report a completed booking may count in. */
  datatype Line = TotalLine | BoxLine(number: int) | OverflowLine | ServiceLine(id: ServiceId)

  /** A column of the report. */
  datatype Column = Cars | Revenue | Minutes

  /** The items for one service. */
  function ItemTally(prices: Prices, service: ServiceId, column: Column, items: seq<Item>): int {
    if items == [] then 0
    else
      var it := items[|items| - 1];
      ItemTally(prices, service, column, items[..|items| - 1]) +
      (if it.service != service then 0
       else match column case Cars => 1 case Revenue => PriceOf(prices, it.option) case Minutes => 0)
  }

  lemma {:induction false} ItemsHaveNoMinutes(prices: Prices, service: ServiceId, items: seq<Item>)
    ensures ItemTally(prices, service, Minutes, items) == 0
  {
    if items != [] {
      ItemsHaveNoMinutes(prices, service, items[..|items| - 1]);
    }
  }

  predicate CountsIn(line: Line, row: Row) {
    row.status == Ready &&
    match line
    case TotalLine => true
    case BoxLine(n) => !row.isOverflow && row.box == n
    case OverflowLine => row.isOverflow
    case ServiceLine(_) => true
  }

  /** What a row adds to a line. Overflow bookings occupy no box time. */
  function Entry(prices: Prices, line: Line, column: Column, row: Row): int {
    if !CountsIn(line, row) then 0
    else if line.ServiceLine? then ItemTally(prices, line.id, column, ItemsOf(row))
    else match column
      case Cars => 1
      case Revenue => BookingPrice(prices, row)
      case Minutes => if row.isOverflow then 0 else MinutesOf(row)
  }

  function Tally(prices: Prices, line: Line, column: Column, rows: seq<Row>): int {
    if rows == [] then 0
    else Tally(prices, line, column, rows[..|rows| - 1]) + Entry(prices, line, column, rows[|rows| - 1])
  }

  /** A whole line of the report. */
  function Total(prices: Prices, line: Line, rows: seq<Row>): Agg {
    Agg(Tally(prices, line, Cars, rows), Tally(prices, line, Revenue, rows), Tally(prices, line, Minutes, rows))
  }

  // ----- breakdowns -----

  function Get<K>(m: map<K, Agg>, k: K): Agg {
    if k in m then m[k] else NONE
  }

  function Cell(column: Column): Agg -> int {
    (a: Agg) => match column case Cars => a.cars case Revenue => a.revenue case Minutes => a.minutes
  }

  /** A column of a breakdown added up. */
  ghost function ColumnSum<K>(column: Column, m: map<K, Agg>): int {
    SumMap(Cell(column), m)
  }

  /** No line of the breakdown is without a car. */
  ghost predicate AllCounted<K>(m: map<K, Agg>) {
    forall k :: k in m ==> m[k].cars > 0
  }

  /** Adds a to the line of k, making the line if there is none. */
  method Bump<K(==)>(m: map<K, Agg>, k: K, a: Agg) returns (r: map<K, Agg>)
    ensures forall x :: x != k ==> Get(r, x) == Get(m, x)
    ensures Get(r, k) == Agg(Get(m, k).cars + a.cars, Get(m, k).revenue + a.revenue, Get(m, k).minutes + a.minutes)
    ensures forall column :: ColumnSum(column, r) == ColumnSum(column, m) + Cell(column)(a)
    ensures a.cars > 0 && AllCounted(m) ==> AllCounted(r)
  {
    var line := if k in m then m[k] else NONE;
    line := Agg(line.cars + a.cars, line.revenue + a.revenue, line.minutes + a.minutes);
    r := m[k := line];
    forall column ensures ColumnSum(column, r) == ColumnSum(column, m) + Cell(column)(a) {
      SumMapUpdate(Cell(column), m, k, line);
    }
  }

  method ComputePrice(row: Row, prices: Prices) returns (total: int)
    ensures total == BookingPrice(prices, row)
  {
    var items := ItemsOf(row);
    total := 0;
    for j := 0 to |items|
      invariant total == Sum(ItemPrice(prices), items[..j])
    {
      assert items[..j + 1][..j] == items[..j];
      total := total + PriceOf(prices, items[j].option);
    }
    assert items[..|items|] == items;
  }

  /** Adds one completed row's items to the service breakdown. */
  method AddItems(items: seq<Item>, prices: Prices, before: map<ServiceId, Agg>)
    returns (byService: map<ServiceId, Agg>)
    ensures forall s :: Get(byService, s).cars == Get(before, s).cars + ItemTally(prices, s, Cars, items)
    ensures forall s :: Get(byService, s).revenue == Get(before, s).revenue + ItemTally(prices, s, Revenue, items)
    ensures forall s :: Get(byService, s).minutes == Get(before, s).minutes
    ensures ColumnSum(Revenue, byService) == ColumnSum(Revenue, before) + Sum(ItemPrice(prices), items)
    ensures AllCounted(before) ==> AllCounted(byService)
  {
    byService := before;
    for j := 0 to |items|
      invariant forall s :: Get(byService, s).cars == Get(before, s).cars + ItemTally(prices, s, Cars, items[..j])
      invariant forall s :: Get(byService, s).revenue == Get(before, s).revenue + ItemTally(prices, s, Revenue, items[..j])
      invariant forall s :: Get(byService, s).minutes == Get(before, s).minutes
      invariant ColumnSum(Revenue, byService) == ColumnSum(Revenue, before) + Sum(ItemPrice(prices), items[..j])
      invariant AllCounted(before) ==> AllCounted(byService)
    {
      assert items[..j + 1][..j] == items[..j];
      var it := items[j];
      byService := Bump(byService, it.service, Agg(1, PriceOf(prices, it.option), 0));
    }
    assert items[..|items|] == items;
  }

  /** a with what a row adds to a line. */
  function Added(prices: Prices, line: Line, a: Agg, row: Row): Agg {
    Agg(a.cars + Entry(prices, line, Cars, row), a.revenue + Entry(prices, line, Revenue, row),
        a.minutes + Entry(prices, line, Minutes, row))
  }

  lemma TotalOfPrefix(prices: Prices, line: Line, rows: seq<Row>, i: nat)
    requires i < |rows|
    ensures Total(prices, line, rows[..i + 1]) == Added(prices, line, Total(prices, line, rows[..i]), rows[i])
  {
    assert rows[..i + 1][..i] == rows[..i];
  }

  /** Adds a row to its service lines. */
  method AddToServices(row: Row, prices: Prices, before: map<ServiceId, Agg>) returns (byService: map<ServiceId, Agg>)
    requires row.status == Ready
    ensures forall s :: Get(byService, s) == Added(prices, ServiceLine(s), Get(before, s), row)
    ensures ColumnSum(Revenue, byService) == ColumnSum(Revenue, before) + BookingPrice(prices, row)
    ensures AllCounted(before) ==> AllCounted(byService)
  {
    byService := AddItems(ItemsOf(row), prices, before);
    forall s ensures ItemTally(prices, s, Minutes, ItemsOf(row)) == 0 {
      ItemsHaveNoMinutes(prices, s, ItemsOf(row));
    }
  }

  /** Adds a row to the line of its box; an overflow booking has none. */
  method AddToBoxes(row: Row, price: int, minutes: int, ghost prices: Prices, before: map<int, Agg>)
    returns (byBox: map<int, Agg>)
    requires row.status == Ready && price == BookingPrice(prices, row) && minutes == MinutesOf(row)
    ensures forall b :: Get(byBox, b) == Added(prices, BoxLine(b), Get(before, b), row)
    ensures forall column ::
      ColumnSum(column, byBox) == ColumnSum(column, before) + if row.isOverflow then 0 else Entry(prices, TotalLine, column, row)
    ensures AllCounted(before) ==> AllCounted(byBox)
  {
    byBox := before;
    if row.isOverflow {
      return;
    }
    byBox := Bump(byBox, row.box, Agg(1, price, minutes));
  }

  /** Line by line the report is what the rows say, and the breakdowns add up. */
  ghost predicate Reported(prices: Prices, rows: seq<Row>, total: Agg, byService: map<ServiceId, Agg>, byBox: map<int, Agg>) {
    var overflow := Total(prices, OverflowLine, rows);
    && total == Total(prices, TotalLine, rows)
    && (forall s :: Get(byService, s) == Total(prices, ServiceLine(s), rows))
    && (forall b :: Get(byBox, b) == Total(prices, BoxLine(b), rows))
    && ColumnSum(Revenue, byService) == total.revenue
    && ColumnSum(Revenue, byBox) + overflow.revenue == total.revenue
    && ColumnSum(Cars, byBox) + overflow.cars == total.cars
    && ColumnSum(Minutes, byBox) == total.minutes
  }

  /** Each line has grown by what the row adds to it, and the breakdowns by what the total has. */
  ghost predicate RowAdded(prices: Prices, row: Row, before: Agg, services: map<ServiceId, Agg>, boxes: map<int, Agg>,
                           total: Agg, byService: map<ServiceId, Agg>, byBox: map<int, Agg>)
  {
    && total == Added(prices, TotalLine, before, row)
    && (forall s :: Get(byService, s) == Added(prices, ServiceLine(s), Get(services, s), row))
    && (forall b :: Get(byBox, b) == Added(prices, BoxLine(b), Get(boxes, b), row))
    && ColumnSum(Revenue, byService) - ColumnSum(Revenue, services) == total.revenue - before.revenue
    && (forall column :: ColumnSum(column, byBox) - ColumnSum(column, boxes) + Entry(prices, OverflowLine, column, row)
                         == Cell(column)(total) - Cell(column)(before))
  }

  lemma NothingAdded(prices: Prices, row: Row, total: Agg, services: map<ServiceId, Agg>, boxes: map<int, Agg>)
    requires row.status != Ready
    ensures RowAdded(prices, row, total, services, boxes, total, services, boxes)
  {
  }

  lemma TotalAdded(prices: Prices, row: Row, before: Agg, total: Agg)
    requires row.status == Ready
    requires total == Agg(before.cars + 1, before.revenue + BookingPrice(prices, row),
                          before.minutes + if row.isOverflow then 0 else MinutesOf(row))
    ensures total == Added(prices, TotalLine, before, row)
  {
  }

  lemma CompletedAdded(prices: Prices, row: Row, before: Agg, services: map<ServiceId, Agg>, boxes: map<int, Agg>,
                       total: Agg, byService: map<ServiceId, Agg>, byBox: map<int, Agg>)
    requires row.status == Ready && total == Added(prices, TotalLine, before, row)
    requires forall s :: Get(byService, s) == Added(prices, ServiceLine(s), Get(services, s), row)
    requires forall b :: Get(byBox, b) == Added(prices, BoxLine(b), Get(boxes, b), row)
    requires ColumnSum(Revenue, byService) == ColumnSum(Revenue, services) + BookingPrice(prices, row)
    requires forall column ::
      ColumnSum(column, byBox) == ColumnSum(column, boxes) + if row.isOverflow then 0 else Entry(prices, TotalLine, column, row)
    ensures RowAdded(prices, row, before, services, boxes, total, byService, byBox)
  {
    forall column
      ensures ColumnSum(column, byBox) - ColumnSum(column, boxes) + Entry(prices, OverflowLine, column, row)
              == Cell(column)(total) - Cell(column)(before)
    {
      assert Cell(column)(total) == Cell(column)(before) + Entry(prices, TotalLine, column, row);
    }
  }

  /** Adds one row to the breakdowns, if it is completed. */
  method AddRow(prices: Prices, row: Row, before: Agg, services: map<ServiceId, Agg>, boxes: map<int, Agg>)
    returns (total: Agg, byService: map<ServiceId, Agg>, byBox: map<int, Agg>)
    ensures RowAdded(prices, row, before, services, boxes, total, byService, byBox)
    ensures AllCounted(services) && AllCounted(boxes) ==> AllCounted(byService) && AllCounted(byBox)
  {
    total, byService, byBox := before, services, boxes;
    if row.status != Ready {
      NothingAdded(prices, row, before, services, boxes);
      return;
    }
    var price := ComputePrice(row, prices);
    var minutes := TruncDiv(row.end - row.start, MINUTE);
    total := total.(cars := total.cars + 1, revenue := total.revenue + price);
    if !row.isOverflow {
      total := total.(minutes := total.minutes + minutes);
    }
    TotalAdded(prices, row, before, total);
    byService := AddToServices(row, prices, byService);
    byBox := AddToBoxes(row, price, minutes, prices, byBox);
    CompletedAdded(prices, row, before, services, boxes, total, byService, byBox);
  }

  lemma ReportedGrows(prices: Prices, rows: seq<Row>, row: Row, before: Agg, services: map<ServiceId, Agg>,
                      boxes: map<int, Agg>, total: Agg, byService: map<ServiceId, Agg>, byBox: map<int, Agg>)
    requires Reported(prices, rows, before, services, boxes)
    requires RowAdded(prices, row, before, services, boxes, total, byService, byBox)
    ensures Reported(prices, rows + [row], total, byService, byBox)
  {
    forall line ensures Total(prices, line, rows + [row]) == Added(prices, line, Total(prices, line, rows), row) {
      assert (rows + [row])[..|rows|] == rows && (rows + [row])[..|rows| + 1] == rows + [row];
      TotalOfPrefix(prices, line, rows + [row], |rows|);
    }
    OverflowHasNoMinutes(prices, row);
    assert Cell(Revenue)(total) == total.revenue && Cell(Cars)(total) == total.cars && Cell(Minutes)(total) == total.minutes;
  }

  lemma OverflowHasNoMinutes(prices: Prices, row: Row)
    ensures Entry(prices, OverflowLine, Minutes, row) == 0
  {
  }

  /** The completed bookings' total and their breakdowns. Line by line these are what
      the rows say; added up, the services give the total revenue, the boxes and the
      overflow bookings together give the total, and booked minutes are the boxes'. */
  method Summarize(rows: seq<Row>, prices: Prices)
    returns (total: Agg, byService: map<ServiceId, Agg>, byBox: map<int, Agg>)
    ensures total == Total(prices, TotalLine, rows)
    ensures forall s :: Get(byService, s) == Total(prices, ServiceLine(s), rows)
    ensures forall b :: Get(byBox, b) == Total(prices, BoxLine(b), rows)
    ensures ColumnSum(Revenue, byService) == total.revenue
    ensures ColumnSum(Revenue, byBox) + Total(prices, OverflowLine, rows).revenue == total.revenue
    ensures ColumnSum(Cars, byBox) + Total(prices, OverflowLine, rows).cars == total.cars
    ensures ColumnSum(Minutes, byBox) == total.minutes
    ensures AllCounted(byService) && AllCounted(byBox)
  {
    total, byService, byBox := NONE, map[], map[];
    for i := 0 to |rows|
      invariant Reported(prices, rows[..i], total, byService, byBox) && AllCounted(byService) && AllCounted(byBox)
    {
      ghost var before, services, boxes := total, byService, byBox;
      total, byService, byBox := AddRow(prices, rows[i], total, byService, byBox);
      ReportedGrows(prices, rows[..i], rows[i], before, services, boxes, total, byService, byBox);
      assert rows[..i + 1] == rows[..i] + [rows[i]];
    }
    assert rows[..|rows|] == rows;
  }

  // ----- service rows, sorted in place -----

  datatype ServiceRow = ServiceRow(service: ServiceId, count: int, revenue: int)

  ghost predicate Descending(rows: seq<ServiceRow>) {
    forall i, j :: 0 <= i < j < |rows| ==> rows[i].revenue >= rows[j].revenue
  }

  method SortByRevenueDesc(rows: array<ServiceRow>)
    modifies rows
    ensures Descending(rows[..])
    ensures multiset(rows[..]) == multiset(old(rows[..]))
  {
    var i := 1;
    while i < rows.Length
      invariant 1 <= i
      invariant rows.Length > 0 ==> i <= rows.Length && Descending(rows[..i])
      invariant multiset(rows[..]) == multiset(old(rows[..]))
    {
      SinkInto(rows, i);
      i := i + 1;
    }
    assert rows.Length > 0 ==> rows[..rows.Length] == rows[..];
  }

  /** Descending up to i, if the row at j is left out; that row earned at least as much
      as those between it and i. */
  ghost predicate Sinking(rows: seq<ServiceRow>, j: int, i: int)
    requires 0 <= j <= i < |rows|
  {
    && (forall p, q :: 0 <= p < q <= i && p != j && q != j ==> rows[p].revenue >= rows[q].revenue)
    && (forall q :: j < q <= i ==> rows[j].revenue >= rows[q].revenue)
  }

  lemma SwapSinks(rows: seq<ServiceRow>, after: seq<ServiceRow>, j: int, i: int)
    requires 0 < j <= i < |rows| && Sinking(rows, j, i) && rows[j].revenue > rows[j - 1].revenue
    requires after == rows[j := rows[j - 1]][j - 1 := rows[j]]
    ensures Sinking(after, j - 1, i) && multiset(after) == multiset(rows)
  {
    forall p, q | 0 <= p < q <= i && p != j - 1 && q != j - 1 ensures after[p].revenue >= after[q].revenue {
      assert rows[if p == j then j - 1 else p].revenue >= rows[if q == j then j - 1 else q].revenue;
    }
  }

  /** Moves rows[i] left past every row that earned less. */
  method SinkInto(rows: array<ServiceRow>, i: nat)
    requires 0 < i < rows.Length && Descending(rows[..i])
    modifies rows
    ensures Descending(rows[..i + 1])
    ensures multiset(rows[..]) == multiset(old(rows[..]))
  {
    var j := i;
    while j > 0 && rows[j].revenue > rows[j - 1].revenue
      invariant 0 <= j <= i && Sinking(rows[..], j, i)
      invariant multiset(rows[..]) == multiset(old(rows[..]))
    {
      ghost var before := rows[..];
      rows[j], rows[j - 1] := rows[j - 1], rows[j];
      SwapSinks(before, rows[..], j, i);
      j := j - 1;
    }
    SunkIsDescending(rows[..], j, i);
    assert rows[..][..i + 1] == rows[..i + 1];
  }

  lemma SunkIsDescending(rows: seq<ServiceRow>, j: int, i: int)
    requires 0 <= j <= i < |rows| && Sinking(rows, j, i) && (j == 0 || rows[j].revenue <= rows[j - 1].revenue)
    ensures Descending(rows[..i + 1])
  {
    forall p | 0 <= p < j ensures rows[p].revenue >= rows[j].revenue {
      assert p == j - 1 || rows[p].revenue >= rows[j - 1].revenue;
    }
  }

  function RowRevenue(): ServiceRow -> int {
    (r: ServiceRow) => r.revenue
  }

  function RowFor(service: ServiceId, a: Agg): ServiceRow {
    ServiceRow(service, a.cars, a.revenue)
  }

  ghost predicate ListsAll(list: seq<ServiceRow>, m: map<ServiceId, Agg>) {
    forall r :: r in list <==> r.service in m && r == RowFor(r.service, m[r.service])
  }

  /** One row per line, in no particular order. */
  method CollectRows(byService: map<ServiceId, Agg>) returns (list: seq<ServiceRow>)
    ensures |list| == |byService| && ListsAll(list, byService)
    ensures Sum(RowRevenue(), list) == ColumnSum(Revenue, byService)
  {
    list := [];
    var rest := byService;
    while rest.Keys != {}
      invariant rest.Keys <= byService.Keys && |list| + |rest| == |byService|
      invariant forall k :: k in rest ==> rest[k] == byService[k]
      invariant forall r :: r in list <==>
        r.service in byService && r.service !in rest && r == RowFor(r.service, byService[r.service])
      invariant Sum(RowRevenue(), list) + ColumnSum(Revenue, rest) == ColumnSum(Revenue, byService)
      decreases |rest|
    {
      var id := Pick(rest.Keys);
      SumMapRemove(Cell(Revenue), rest, id);
      var row := RowFor(id, rest[id]);
      assert (list + [row])[..|list|] == list;
      list := list + [row];
      assert rest.Keys == (rest - {id}).Keys + {id};
      rest := rest - {id};
    }
    assert rest == map[];
  }

  /** The breakdown as report rows: one per service, best earner first, adding up to
      the breakdown. */
  method ServiceRows(byService: map<ServiceId, Agg>) returns (rows: array<ServiceRow>)
    ensures fresh(rows) && rows.Length == |byService|
    ensures Descending(rows[..]) && ListsAll(rows[..], byService)
    ensures Sum(RowRevenue(), rows[..]) == ColumnSum(Revenue, byService)
  {
    var list := CollectRows(byService);
    rows := new ServiceRow[|list|](k requires 0 <= k < |list| => list[k]);
    assert rows[..] == list;
    SortByRevenueDesc(rows);
    SumPermutation(RowRevenue(), rows[..], list);
    SameMembers(rows[..], list);
  }

  // ----- what one booking adds, independently -----

  lemma TallyOne(prices: Prices, line: Line, column: Column, row: Row)
    ensures Tally(prices, line, column, [row]) == Entry(prices, line, column, row)
  {
    assert [row][..0] == [];
  }

  lemma TotalOfOne(prices: Prices, line: Line, row: Row)
    ensures Total(prices, line, [row]) ==
            Agg(Entry(prices, line, Cars, row), Entry(prices, line, Revenue, row), Entry(prices, line, Minutes, row))
  {
    TallyOne(prices, line, Cars, row);
    TallyOne(prices, line, Revenue, row);
    TallyOne(prices, line, Minutes, row);
  }

  lemma TallyGrows(prices: Prices, line: Line, column: Column, rows: seq<Row>, row: Row)
    ensures Tally(prices, line, column, rows + [row]) ==
            Tally(prices, line, column, rows) + Tally(prices, line, column, [row])
  {
    TallyOne(prices, line, column, row);
    assert (rows + [row])[..|rows|] == rows;
  }

  /** A list's lines are those of its bookings added up. */
  lemma TotalsAdd(prices: Prices, line: Line, rows: seq<Row>, row: Row)
    ensures var (all, some, one) := (Total(prices, line, rows + [row]), Total(prices, line, rows), Total(prices, line, [row]));
            all == Agg(some.cars + one.cars, some.revenue + one.revenue, some.minutes + one.minutes)
  {
    TallyGrows(prices, line, Cars, rows, row);
    TallyGrows(prices, line, Revenue, rows, row);
    TallyGrows(prices, line, Minutes, rows, row);
  }

  /** A completed booking is one car and its price, and outside overflow also its whole minutes,
      in the total and in its box's line or the overflow line; any other booking is nothing. */
  lemma LinesOfOne(prices: Prices, row: Row, box: int)
    requires row.start <= row.end
    ensures var done := Agg(1, BookingPrice(prices, row), if row.isOverflow then 0 else (row.end - row.start) / MINUTE);
            && Total(prices, TotalLine, [row]) == (if row.status == Ready then done else Agg(0, 0, 0))
            && Total(prices, BoxLine(box), [row]) ==
               (if row.status == Ready && !row.isOverflow && row.box == box then done else Agg(0, 0, 0))
            && Total(prices, OverflowLine, [row]) == (if row.status == Ready && row.isOverflow then done else Agg(0, 0, 0))
  {
    TotalOfOne(prices, TotalLine, row);
    TotalOfOne(prices, BoxLine(box), row);
    TotalOfOne(prices, OverflowLine, row);
  }

  /** A booking without items costs its primary option, one with a single item that item's; an
      option without a price costs nothing. */
  lemma PriceOfOne(prices: Prices, row: Row, it: Item)
    ensures BookingPrice(prices, row.(items := [])) ==
            if row.primary.option in prices then prices[row.primary.option] else 0
    ensures BookingPrice(prices, row.(items := [it])) == if it.option in prices then prices[it.option] else 0
  {
    SumOne(ItemPrice(prices), row.primary);
    SumOne(ItemPrice(prices), it);
  }

  /** Each further item adds its own price, whatever the primary service is. */
  lemma PriceOfFurther(prices: Prices, row: Row, it: Item)
    requires row.items != []
    ensures BookingPrice(prices, row.(items := row.items + [it])) ==
            BookingPrice(prices, row) + if it.option in prices then prices[it.option] else 0
  {
    SumAppend(ItemPrice(prices), row.items, [it]);
    SumOne(ItemPrice(prices), it);
  }

  /** In a service's line a completed booking counts once for each of its items of that service,
      or for its primary service when it has no items. */
  lemma ServiceOfOne(prices: Prices, row: Row, it: Item, s: ServiceId)
    requires row.status == Ready
    ensures Total(prices, ServiceLine(s), [row.(items := [])]) ==
            if row.primary.service == s then Agg(1, if row.primary.option in prices then prices[row.primary.option] else 0, 0)
            else Agg(0, 0, 0)
    ensures Total(prices, ServiceLine(s), [row.(items := [it])]) ==
            if it.service == s then Agg(1, if it.option in prices then prices[it.option] else 0, 0) else Agg(0, 0, 0)
  {
    ServiceOfItems(prices, row.(items := []), s);
    ServiceOfItems(prices, row.(items := [it]), s);
    assert [row.primary][..0] == [] && [it][..0] == [];
  }

  lemma ServiceOfItems(prices: Prices, row: Row, s: ServiceId)
    requires row.status == Ready
    ensures Total(prices, ServiceLine(s), [row]) ==
            Agg(ItemTally(prices, s, Cars, ItemsOf(row)), ItemTally(prices, s, Revenue, ItemsOf(row)), 0)
  {
    TotalOfOne(prices, ServiceLine(s), row);
    ItemsHaveNoMinutes(prices, s, ItemsOf(row));
  }

  lemma ServiceOfFurther(prices: Prices, row: Row, it: Item, s: ServiceId)
    requires row.status == Ready && row.items != []
    ensures var (before, after) := (Total(prices, ServiceLine(s), [row]),
                                    Total(prices, ServiceLine(s), [row.(items := row.items + [it])]));
            after == if it.service != s then before
                     else Agg(before.cars + 1, before.revenue + (if it.option in prices then prices[it.option] else 0), 0)
  {
    ServiceOfItems(prices, row, s);
    ServiceOfItems(prices, row.(items := row.items + [it]), s);
    assert (row.items + [it])[..|row.items|] == row.items;
  }
}
