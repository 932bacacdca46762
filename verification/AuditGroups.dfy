/** The audit timeline: events grouped by correlation id and sorted on two levels,
    and the colour of a group. */
module AuditGroups {
  import opened Grouping
  import opened Prefixes
  import opened Sorting

  datatype Event = Event(id: string, correlationId: string, time: int, sequence: int)

  datatype Row = Row(correlationId: string, color: int, events: seq<Event>)

  // ----- the colour -----

  const COLORS := 10

  /** ECMAScript `x | 0` on an integer. */
  function ToInt32(x: int): (r: int)
    ensures -0x8000_0000 <= r < 0x8000_0000
    ensures (x - r) % 0x1_0000_0000 == 0
  {
    (x + 0x8000_0000) % 0x1_0000_0000 - 0x8000_0000
  }

  /** `charCodeAt(0)` of a character: its first UTF-16 unit. */
  function FirstUnit(c: char): int {
    var u := c as int;
    if u < 0x1_0000 then u else 0xD800 + (u - 0x1_0000) / 0x400
  }

  /** A character of the basic plane is its own unit; the others begin with a high
      surrogate that tells which block of 1024 they are in. */
  lemma FirstUnitExactly(c: char)
    ensures c as int < 0x1_0000 ==> FirstUnit(c) == c as int
    ensures c as int >= 0x1_0000 ==>
      && 0xD800 <= FirstUnit(c) < 0xDC00
      && 0x1_0000 + (FirstUnit(c) - 0xD800) * 1024 <= c as int < 0x1_0000 + (FirstUnit(c) - 0xD800 + 1) * 1024
  {
  }

  function Pow31(n: nat): int {
    if n == 0 then 1 else 31 * Pow31(n - 1)
  }

  /** The text read as a number in base 31, first character first. */
  function Polynomial(text: string): int {
    if text == "" then 0 else FirstUnit(text[0]) * Pow31(|text| - 1) + Polynomial(text[1..])
  }

  lemma {:induction false} PolynomialAppend(text: string, c: char)
    ensures Polynomial(text + [c]) == 31 * Polynomial(text) + FirstUnit(c)
  {
    if text == "" {
      assert Polynomial([c]) == FirstUnit(c) * Pow31(0) + Polynomial([]);
    } else {
      assert (text + [c])[1..] == text[1..] + [c];
      PolynomialAppend(text[1..], c);
      var u, p := FirstUnit(text[0]), Pow31(|text| - 1);
      assert Pow31(|text|) == 31 * p;
      assert u * (31 * p) == 31 * (u * p);
    }
  }

  lemma SameWord(x: int, y: int)
    requires (x - y) % 0x1_0000_0000 == 0
    ensures ToInt32(x) == ToInt32(y)
  {
  }

  /** One round of the shift-and-subtract hash, from the reduced value of any
      number, gives the reduced value of 31 times that number plus the unit. */
  lemma HashRound(x: int, unit: int)
    ensures var hash := ToInt32(x); ToInt32(ToInt32(hash * 32) - hash + unit) == ToInt32(31 * x + unit)
  {
    var hash := ToInt32(x);
    SameWord(ToInt32(hash * 32) - hash + unit, 31 * x + unit);
  }

  function Magnitude(x: int): int {
    if x < 0 then -x else x
  }

  method ColorForCorrelation(correlationId: string) returns (index: int)
    ensures index == Magnitude(ToInt32(Polynomial(correlationId))) % COLORS
    ensures 0 <= index < COLORS
  {
    var hash := 0;
    ghost var read := "";
    for i := 0 to |correlationId|
      invariant read == correlationId[..i]
      invariant hash == ToInt32(Polynomial(read))
    {
      PolynomialAppend(read, correlationId[i]);
      HashRound(Polynomial(read), FirstUnit(correlationId[i]));
      PrefixGrows(correlationId, i);
      hash := ToInt32(ToInt32(hash * 32) - hash + FirstUnit(correlationId[i]));
      read := read + [correlationId[i]];
    }
    WholePrefix(correlationId);
    index := Magnitude(hash) % COLORS;
  }

  // ----- grouping and sorting -----

  predicate EventLe(a: Event, b: Event) {
    a.time < b.time || (a.time == b.time && a.sequence <= b.sequence)
  }

  /** The time of the first event; every row of a timeline has one. */
  function StartOf(row: Row): int {
    if row.events == [] then 0 else row.events[0].time
  }

  predicate RowLe(a: Row, b: Row) {
    StartOf(a) <= StartOf(b)
  }

  function CorrelationOf(event: Event): string {
    event.correlationId
  }

  function RowFor(id: string, events: seq<Event>): Row {
    Row(id, Magnitude(ToInt32(Polynomial(id))) % COLORS, Sort(EventLe, events))
  }

  function RowsOf(g: Groups<string, Event>): (rows: seq<Row>)
    ensures |rows| == |g.keys|
  {
    seq(|g.keys|, k requires 0 <= k < |g.keys| => RowFor(g.keys[k], MembersOf(g, g.keys[k])))
  }

  function TimelineOf(items: seq<Event>): seq<Row> {
    Sort(RowLe, RowsOf(GroupBy(CorrelationOf, items)))
  }

  method GroupEvents(items: seq<Event>) returns (grouped: Groups<string, Event>)
    ensures grouped == GroupBy(CorrelationOf, items)
  {
    grouped := Groups([], map[]);
    ghost var seen: seq<Event> := [];
    for i := 0 to |items|
      invariant seen == items[..i]
      invariant grouped == GroupBy(CorrelationOf, seen)
    {
      var item := items[i];
      GroupByAppend(CorrelationOf, seen, item);
      PrefixGrows(items, i);
      grouped := Pushed(grouped, item.correlationId, item);
      seen := seen + [item];
    }
    WholePrefix(items);
  }

  method BuildTimeline(items: seq<Event>) returns (rows: seq<Row>)
    ensures rows == TimelineOf(items)
  {
    var grouped := GroupEvents(items);
    var unsorted: seq<Row> := [];
    for k := 0 to |grouped.keys|
      invariant |unsorted| == k
      invariant forall j :: 0 <= j < k ==> unsorted[j] == RowFor(grouped.keys[j], MembersOf(grouped, grouped.keys[j]))
    {
      var id := grouped.keys[k];
      var color := ColorForCorrelation(id);
      unsorted := unsorted + [Row(id, color, Sort(EventLe, MembersOf(grouped, id)))];
    }
    assert unsorted == RowsOf(grouped);
    rows := Sort(RowLe, unsorted);
  }

  // ----- what the timeline shows -----

  function EventsOf(items: seq<Event>, id: string): seq<Event> {
    Filter((e: Event) => e.correlationId == id, items)
  }

  lemma EventOrderIsPreorder()
    ensures Preorder(EventLe) && Preorder(RowLe)
  {
  }

  lemma RowsAreGroups(items: seq<Event>, id: string)
    ensures var g := GroupBy(CorrelationOf, items);
      && MembersOf(g, id) == EventsOf(items, id)
      && (id in g.keys <==> exists e :: e in items && e.correlationId == id)
  {
    var g := GroupBy(CorrelationOf, items);
    GroupsAreFiltered(CorrelationOf, items, id);
    GroupByIsWellFormed(CorrelationOf, items);
    SameFilter(items, id);
    if id in g.keys {
      var e :| e in items && CorrelationOf(e) == id;
    }
    if e :| e in items && e.correlationId == id {
      assert CorrelationOf(e) == id;
    }
  }

  lemma {:induction false} SameFilter(items: seq<Event>, id: string)
    ensures Filter(x => CorrelationOf(x) == id, items) == EventsOf(items, id)
  {
    if items != [] {
      SameFilter(items[..|items| - 1], id);
    }
  }

  /** A row holds exactly the events of its correlation id, ordered by time and
      sequence number, so that it starts with the earliest. */
  lemma RowIsExact(items: seq<Event>, id: string)
    requires exists e :: e in items && e.correlationId == id
    ensures var row := RowFor(id, EventsOf(items, id));
      && row.events != [] && row.events[0].time == StartOf(row)
      && multiset(row.events) == multiset(EventsOf(items, id))
      && Ordered(EventLe, row.events)
      && (forall e :: e in row.events <==> e in items && e.correlationId == id)
      && (forall e :: e in row.events ==> StartOf(row) <= e.time)
  {
    var events := EventsOf(items, id);
    var row := RowFor(id, events);
    EventOrderIsPreorder();
    SortPermutes(EventLe, events);
    SortOrders(EventLe, events);
    FilterMembers((e: Event) => e.correlationId == id, items);
    var e :| e in items && e.correlationId == id;
    assert e in row.events;
    forall e | e in row.events ensures StartOf(row) <= e.time {
      var k :| 0 <= k < |row.events| && row.events[k] == e;
      assert k > 0 ==> EventLe(row.events[0], row.events[k]);
    }
  }

  lemma RowsHaveNoRepeats(items: seq<Event>)
    ensures NoRepeats(RowsOf(GroupBy(CorrelationOf, items)))
  {
    GroupByIsWellFormed(CorrelationOf, items);
  }

  lemma RowsBeforeSorting(items: seq<Event>, row: Row)
    ensures row in RowsOf(GroupBy(CorrelationOf, items)) <==>
      row == RowFor(row.correlationId, EventsOf(items, row.correlationId))
      && exists e :: e in items && e.correlationId == row.correlationId
  {
    var g := GroupBy(CorrelationOf, items);
    var rows := RowsOf(g);
    RowsAreGroups(items, row.correlationId);
    if row in rows {
      var k :| 0 <= k < |rows| && rows[k] == row;
      assert row.correlationId == g.keys[k];
    }
    if row.correlationId in g.keys {
      var k :| 0 <= k < |g.keys| && g.keys[k] == row.correlationId;
      assert rows[k] == RowFor(row.correlationId, EventsOf(items, row.correlationId));
    }
  }

  /** The rows of a timeline: one for each correlation id that occurs, no other,
      none twice, and in the order of their earliest events. */
  lemma TimelineIsExact(items: seq<Event>)
    ensures var rows := TimelineOf(items);
      && (forall row :: row in rows <==>
            row == RowFor(row.correlationId, EventsOf(items, row.correlationId))
            && exists e :: e in items && e.correlationId == row.correlationId)
      && (forall j, k :: 0 <= j < k < |rows| ==> rows[j].correlationId != rows[k].correlationId)
      && (forall j, k :: 0 <= j < k < |rows| ==> StartOf(rows[j]) <= StartOf(rows[k]))
  {
    var unsorted := RowsOf(GroupBy(CorrelationOf, items));
    var rows := TimelineOf(items);
    EventOrderIsPreorder();
    SortPermutes(RowLe, unsorted);
    SortOrders(RowLe, unsorted);
    RowsHaveNoRepeats(items);
    PermutationHasNoRepeats(unsorted, rows);
    forall row {
      RowsBeforeSorting(items, row);
    }
    forall j, k | 0 <= j < k < |rows|
      ensures rows[j].correlationId != rows[k].correlationId && StartOf(rows[j]) <= StartOf(rows[k])
    {
      assert rows[j] in rows && rows[k] in rows;
      assert RowLe(rows[j], rows[k]);
    }
  }

  /** No two events of one correlation id share time and sequence number. */
  ghost predicate EventsTellApart(items: seq<Event>) {
    forall a, b ::
      a in items && b in items && a.correlationId == b.correlationId && EventLe(a, b) && EventLe(b, a) ==> a == b
  }

  lemma RowIgnoresArrival(a: seq<Event>, b: seq<Event>, id: string)
    requires multiset(a) == multiset(b) && EventsTellApart(a)
    ensures RowFor(id, EventsOf(a, id)) == RowFor(id, EventsOf(b, id))
  {
    var p := (e: Event) => e.correlationId == id;
    var x, y := EventsOf(a, id), EventsOf(b, id);
    EventOrderIsPreorder();
    FilterPermutes(p, a, b);
    FilterMembers(p, a);
    SortPermutes(EventLe, x);
    SortPermutes(EventLe, y);
    SortOrders(EventLe, x);
    SortOrders(EventLe, y);
    OrderedIsUnique(EventLe, Sort(EventLe, x), Sort(EventLe, y));
  }

  /** When no two events of a group and no two groups tie, the timeline does not
      depend on the order in which the events arrive. */
  lemma TimelineIgnoresArrival(a: seq<Event>, b: seq<Event>)
    requires multiset(a) == multiset(b) && EventsTellApart(a)
    requires forall r, q :: r in TimelineOf(a) && q in TimelineOf(a) && StartOf(r) == StartOf(q) ==> r == q
    ensures TimelineOf(a) == TimelineOf(b)
  {
    var x, y := RowsOf(GroupBy(CorrelationOf, a)), RowsOf(GroupBy(CorrelationOf, b));
    forall row ensures row in x <==> row in y {
      RowsBeforeSorting(a, row);
      RowsBeforeSorting(b, row);
      RowIgnoresArrival(a, b, row.correlationId);
      assert forall e :: e in a <==> e in multiset(a);
      assert forall e :: e in b <==> e in multiset(b);
    }
    RowsHaveNoRepeats(a);
    RowsHaveNoRepeats(b);
    SameMembersPermute(x, y);
    EventOrderIsPreorder();
    SortPermutes(RowLe, x);
    SortPermutes(RowLe, y);
    SortOrders(RowLe, x);
    SortOrders(RowLe, y);
    OrderedIsUnique(RowLe, TimelineOf(a), TimelineOf(b));
  }

  /** A row in terms of its events: they ascend by time and, at the same time, by sequence
      number, and there is one. */
  lemma RowAscends(items: seq<Event>, row: Row, j: nat, k: nat)
    requires row in TimelineOf(items)
    ensures row.events != []
    ensures j < k < |row.events| ==>
      || row.events[j].time < row.events[k].time
      || (row.events[j].time == row.events[k].time && row.events[j].sequence <= row.events[k].sequence)
  {
    TimelineIsExact(items);
    RowIsExact(items, row.correlationId);
    if j < k < |row.events| {
      assert EventLe(row.events[j], row.events[k]);
    }
  }

  /** The rows ascend by the time of their first events. */
  lemma RowsAscend(items: seq<Event>, q: nat, r: nat)
    requires q < r < |TimelineOf(items)|
    ensures var rows := TimelineOf(items);
      rows[q].events != [] && rows[r].events != [] && rows[q].events[0].time <= rows[r].events[0].time
  {
    var rows := TimelineOf(items);
    TimelineIsExact(items);
    RowAscends(items, rows[q], 0, 0);
    RowAscends(items, rows[r], 0, 0);
  }

  /** The colour of a row is the last digit of the hash of its id, whatever the sign. */
  lemma RowIsColored(items: seq<Event>, row: Row)
    requires row in TimelineOf(items)
    ensures var hash := ToInt32(Polynomial(row.correlationId));
      0 <= row.color < 10 && exists tens: nat :: hash == 10 * tens + row.color || hash == -(10 * tens + row.color)
  {
    TimelineIsExact(items);
    var hash := ToInt32(Polynomial(row.correlationId));
    var tens: nat := Magnitude(hash) / 10;
    assert Magnitude(hash) == 10 * tens + row.color;
  }
}
