/** Ticket numbering of the cabinet's day list. */
module Tickets {
  import opened Bookings
  import opened Clock
  import opened Decimal
  import opened Sorting
  import opened Sums

  /** A booking of the day. Ids are numbered in the order of their string forms;
      box 0 is the overflow box. */
  datatype DayRow = DayRow(id: nat, created: Instant, box: nat, status: Status)

  const TICKET_NUMBER_BASE := 10

  predicate Before(a: DayRow, b: DayRow) {
    a.created < b.created || (a.created == b.created && a.id < b.id)
  }

  function NotAfter(): (DayRow, DayRow) -> bool {
    (a: DayRow, b: DayRow) => !Before(b, a)
  }

  function Letter(box: nat): nat {
    if box == 0 then 14 else (box - 1) % 26
  }

  function LetterOf(k: nat): (c: char)
    requires k < 26
    ensures c as int == 'A' as int + k
  {
    ('A' as int + k) as char
  }

  function TicketPrefix(box: nat): string {
    [if box == 0 then 'O' else LetterOf((box - 1) % 26), '-']
  }

  function Ticket(box: nat, n: nat): string {
    TicketPrefix(box) + Itoa(n)
  }

  ghost predicate UniqueIds(rows: seq<DayRow>) {
    forall i, j :: 0 <= i < j < |rows| ==> rows[i].id != rows[j].id
  }

  // ----- the specification: a rank within the box -----

  function EarlierInBox(row: DayRow): DayRow -> int {
    (r: DayRow) => if r.box == row.box && Before(r, row) then 1 else 0
  }

  function InBox(box: nat): DayRow -> int {
    (r: DayRow) => if r.box == box then 1 else 0
  }

  /** 1 + how many bookings of its box were created before it. */
  function Rank(row: DayRow, rows: seq<DayRow>): int {
    1 + Sum(EarlierInBox(row), rows)
  }

  lemma {:induction false} RankPositive(row: DayRow, rows: seq<DayRow>)
    ensures Rank(row, rows) >= 1
  {
    if rows != [] {
      RankPositive(row, rows[..|rows| - 1]);
    }
  }

  function Number(row: DayRow, rows: seq<DayRow>): nat {
    RankPositive(row, rows);
    TICKET_NUMBER_BASE + Rank(row, rows)
  }

  function TicketOf(row: DayRow, rows: seq<DayRow>): string {
    Ticket(row.box, Number(row, rows))
  }

  // ----- sorting by creation -----

  function HasId(id: nat): DayRow -> int {
    (r: DayRow) => if r.id == id then 1 else 0
  }

  lemma {:induction false} UniqueMeansOnce(rows: seq<DayRow>, id: nat)
    requires UniqueIds(rows)
    ensures Sum(HasId(id), rows) == if exists k :: 0 <= k < |rows| && rows[k].id == id then 1 else 0
  {
    if rows != [] {
      var n := |rows| - 1;
      UniqueMeansOnce(rows[..n], id);
      if k :| 0 <= k < n && rows[..n][k].id == id {
        assert rows[k].id == id && rows[n].id != id;
      } else if rows[n].id != id {
        forall k | 0 <= k < |rows| ensures rows[k].id != id {
          assert k == n || rows[..n][k].id != id;
        }
      }
    }
  }

  lemma CountedTwice(rows: seq<DayRow>, id: nat, i: nat, j: nat)
    requires i < j < |rows| && rows[i].id == id == rows[j].id
    ensures Sum(HasId(id), rows) >= 2
  {
    SumSplit(HasId(id), rows, j);
    SumSplit(HasId(id), rows[..j], i);
    SumLessEqual(Zero(), HasId(id), rows[..j][..i]);
    SumLessEqual(Zero(), HasId(id), rows[..j][i + 1..]);
    SumLessEqual(Zero(), HasId(id), rows[j + 1..]);
    SumZero(Zero(), rows[..j][..i]);
    SumZero(Zero(), rows[..j][i + 1..]);
    SumZero(Zero(), rows[j + 1..]);
  }

  lemma UniquePermuted(rows: seq<DayRow>, sorted: seq<DayRow>)
    requires UniqueIds(rows) && multiset(rows) == multiset(sorted)
    ensures UniqueIds(sorted)
  {
    forall i, j | 0 <= i < j < |sorted| ensures sorted[i].id != sorted[j].id {
      if sorted[i].id == sorted[j].id {
        CountedTwice(sorted, sorted[i].id, i, j);
        SumPermutation(HasId(sorted[i].id), rows, sorted);
        UniqueMeansOnce(rows, sorted[i].id);
      }
    }
  }

  /** The bookings in creation order. */
  function ByCreation(rows: seq<DayRow>): (r: seq<DayRow>)
    ensures SortedBy(NotAfter(), r) && multiset(r) == multiset(rows) && |r| == |rows|
  {
    assert TotalPreorder(NotAfter());
    SortBy(NotAfter(), rows)
  }

  lemma EarlierArePrefix(sorted: seq<DayRow>, i: nat)
    requires SortedBy(NotAfter(), sorted) && UniqueIds(sorted) && i < |sorted|
    ensures Sum(EarlierInBox(sorted[i]), sorted[..i]) == Sum(InBox(sorted[i].box), sorted[..i])
  {
    var row := sorted[i];
    forall r | r in sorted[..i] ensures EarlierInBox(row)(r) == InBox(row.box)(r) {
      var k :| 0 <= k < i && sorted[k] == r;
      assert NotAfter()(sorted[k], sorted[i]);
    }
    SumEqual(EarlierInBox(row), InBox(row.box), sorted[..i]);
  }

  lemma NoneEarlierFrom(sorted: seq<DayRow>, i: nat)
    requires SortedBy(NotAfter(), sorted) && i < |sorted|
    ensures Sum(EarlierInBox(sorted[i]), sorted[i..]) == 0
  {
    var row := sorted[i];
    forall r | r in sorted[i..] ensures EarlierInBox(row)(r) == 0 {
      var k :| i <= k < |sorted| && sorted[k] == r;
      assert k == i || NotAfter()(sorted[i], sorted[k]);
    }
    SumZero(EarlierInBox(row), sorted[i..]);
  }

  /** In creation order the rank is a running count of the box. */
  lemma RankInOrder(rows: seq<DayRow>, i: nat)
    requires UniqueIds(rows) && i < |rows|
    ensures var sorted := ByCreation(rows);
            Rank(sorted[i], rows) == 1 + Sum(InBox(sorted[i].box), sorted[..i])
  {
    var sorted := ByCreation(rows);
    UniquePermuted(rows, sorted);
    SumPermutation(EarlierInBox(sorted[i]), rows, sorted);
    assert sorted == sorted[..i] + sorted[i..];
    SumAppend(EarlierInBox(sorted[i]), sorted[..i], sorted[i..]);
    EarlierArePrefix(sorted, i);
    NoneEarlierFrom(sorted, i);
  }

  // ----- the numbering loop -----

  function CounterOf(counters: map<nat, nat>, box: nat): nat {
    if box in counters then counters[box] else 0
  }

  ghost predicate Counts(counters: map<nat, nat>, rows: seq<DayRow>) {
    forall b: nat :: CounterOf(counters, b) == Sum(InBox(b), rows)
  }

  lemma CountsStep(counters: map<nat, nat>, rows: seq<DayRow>, row: DayRow)
    requires Counts(counters, rows)
    ensures Counts(counters[row.box := CounterOf(counters, row.box) + 1], rows + [row])
  {
    assert (rows + [row])[..|rows|] == rows;
  }

  /** The tickets are those of some of the bookings, and of no others. */
  ghost predicate Ticketed(tickets: map<nat, string>, some: seq<DayRow>, rows: seq<DayRow>) {
    TicketsRight(tickets, some, rows) && TicketsOnlyOf(tickets, some)
  }

  ghost predicate TicketsRight(tickets: map<nat, string>, some: seq<DayRow>, rows: seq<DayRow>) {
    forall r :: r in some ==> r.id in tickets && tickets[r.id] == TicketOf(r, rows)
  }

  ghost predicate TicketsOnlyOf(tickets: map<nat, string>, some: seq<DayRow>) {
    forall id :: id in tickets ==> exists r :: r in some && r.id == id
  }

  lemma OthersKeepTickets(tickets: map<nat, string>, some: seq<DayRow>, row: DayRow, ticket: string, rows: seq<DayRow>)
    requires TicketsRight(tickets, some, rows) && ticket == TicketOf(row, rows)
    requires forall r :: r in some ==> r.id != row.id
    ensures TicketsRight(tickets[row.id := ticket], some + [row], rows)
  {
  }

  lemma OnlyOneMore(tickets: map<nat, string>, some: seq<DayRow>, row: DayRow, ticket: string)
    requires TicketsOnlyOf(tickets, some)
    ensures TicketsOnlyOf(tickets[row.id := ticket], some + [row])
  {
    assert row in some + [row];
    forall id | id in tickets ensures exists r :: r in some + [row] && r.id == id {
      var r :| r in some && r.id == id;
      assert r in some + [row];
    }
  }

  lemma TicketedStep(tickets: map<nat, string>, sorted: seq<DayRow>, i: nat, rows: seq<DayRow>)
    requires UniqueIds(sorted) && i < |sorted| && Ticketed(tickets, sorted[..i], rows)
    ensures Ticketed(tickets[sorted[i].id := TicketOf(sorted[i], rows)], sorted[..i + 1], rows)
  {
    forall r | r in sorted[..i] ensures r.id != sorted[i].id {
      var k :| 0 <= k < i && sorted[k] == r;
    }
    OthersKeepTickets(tickets, sorted[..i], sorted[i], TicketOf(sorted[i], rows), rows);
    OnlyOneMore(tickets, sorted[..i], sorted[i], TicketOf(sorted[i], rows));
    assert sorted[..i + 1] == sorted[..i] + [sorted[i]];
  }

  /** One turn of the numbering loop: bumps the box's counter and writes the ticket. */
  function Turn(row: DayRow, counters: map<nat, nat>, tickets: map<nat, string>): (map<nat, nat>, map<nat, string>) {
    var n := CounterOf(counters, row.box) + 1;
    (counters[row.box := n], tickets[row.id := Ticket(row.box, TICKET_NUMBER_BASE + n)])
  }

  /** The state of the numbering loop before its i-th booking. */
  ghost predicate Numbered(rows: seq<DayRow>, i: nat, counters: map<nat, nat>, tickets: map<nat, string>)
    requires i <= |rows|
  {
    Counts(counters, ByCreation(rows)[..i]) && Ticketed(tickets, ByCreation(rows)[..i], rows)
  }

  /** The box's counter is the next booking's number. */
  lemma NextNumber(rows: seq<DayRow>, i: nat, counters: map<nat, nat>)
    requires UniqueIds(rows) && i < |rows| && Counts(counters, ByCreation(rows)[..i])
    ensures var row := ByCreation(rows)[i];
            TICKET_NUMBER_BASE + CounterOf(counters, row.box) + 1 == Number(row, rows)
  {
    RankInOrder(rows, i);
  }

  lemma NextCounts(sorted: seq<DayRow>, i: nat, counters: map<nat, nat>)
    requires i < |sorted| && Counts(counters, sorted[..i])
    ensures Counts(counters[sorted[i].box := CounterOf(counters, sorted[i].box) + 1], sorted[..i + 1])
  {
    CountsStep(counters, sorted[..i], sorted[i]);
    assert sorted[..i + 1] == sorted[..i] + [sorted[i]];
  }

  lemma NextTicket(rows: seq<DayRow>, i: nat, counters: map<nat, nat>, tickets: map<nat, string>)
    requires UniqueIds(rows) && i < |rows| && Numbered(rows, i, counters, tickets)
    ensures var after := Turn(ByCreation(rows)[i], counters, tickets);
            Numbered(rows, i + 1, after.0, after.1)
  {
    var sorted := ByCreation(rows);
    UniquePermuted(rows, sorted);
    NextNumber(rows, i, counters);
    NextCounts(sorted, i, counters);
    TicketedStep(tickets, sorted, i, rows);
  }

  lemma NoneNumbered(rows: seq<DayRow>)
    ensures Numbered(rows, 0, map[], map[])
  {
  }

  lemma AllNumbered(rows: seq<DayRow>, counters: map<nat, nat>, tickets: map<nat, string>)
    requires Numbered(rows, |rows|, counters, tickets)
    ensures Ticketed(tickets, rows, rows)
  {
    assert ByCreation(rows)[..|rows|] == ByCreation(rows);
    SameMembers(rows, ByCreation(rows));
  }

  /** Numbers a copy in creation order, one counter per box. Every booking of the list
      gets the ticket its rank gives it, whatever the list's own order. */
  method TicketsById(rows: seq<DayRow>) returns (ticketById: map<nat, string>)
    requires UniqueIds(rows)
    ensures Ticketed(ticketById, rows, rows)
  {
    var byCreation := ByCreation(rows);
    var counters: map<nat, nat>;
    counters, ticketById := map[], map[];
    NoneNumbered(rows);
    for i := 0 to |byCreation|
      invariant Numbered(rows, i, counters, ticketById)
    {
      NextTicket(rows, i, counters, ticketById);
      var after := Turn(byCreation[i], counters, ticketById);
      counters, ticketById := after.0, after.1;
    }
    AllNumbered(rows, counters, ticketById);
  }

  // ----- numbers within a box -----

  /** Some prefix of the list has n - 1 bookings of the box and is followed by another. */
  lemma {:induction false} NthInBox(rows: seq<DayRow>, box: nat, n: int) returns (i: nat)
    requires 1 <= n <= Sum(InBox(box), rows)
    ensures i < |rows| && rows[i].box == box && Sum(InBox(box), rows[..i]) == n - 1
  {
    var m := |rows| - 1;
    if n <= Sum(InBox(box), rows[..m]) {
      i := NthInBox(rows[..m], box, n);
      assert rows[..m][..i] == rows[..i];
    } else {
      i := m;
    }
  }

  /** Every number from 11 to 10 plus the box's bookings is given out. */
  lemma NumbersHaveNoGaps(rows: seq<DayRow>, box: nat, n: int) returns (row: DayRow)
    requires UniqueIds(rows) && 1 <= n <= Sum(InBox(box), rows)
    ensures row in rows && row.box == box && Number(row, rows) == TICKET_NUMBER_BASE + n
  {
    var sorted := ByCreation(rows);
    SumPermutation(InBox(box), rows, sorted);
    var i := NthInBox(sorted, box, n);
    RankInOrder(rows, i);
    row := sorted[i];
    SameMembers(rows, sorted);
  }

  lemma {:induction false} PrefixCount(rows: seq<DayRow>, box: nat, i: nat, j: nat)
    requires i < j <= |rows| && rows[i].box == box
    ensures Sum(InBox(box), rows[..i]) < Sum(InBox(box), rows[..j])
    decreases j
  {
    assert rows[..j][..j - 1] == rows[..j - 1];
    if i < j - 1 {
      PrefixCount(rows, box, i, j - 1);
    }
  }

  /** Of two bookings of a box the one first in creation order has the smaller number. */
  lemma OrderIsNumberOrder(rows: seq<DayRow>, i: nat, j: nat)
    requires UniqueIds(rows) && i < j < |rows| && ByCreation(rows)[i].box == ByCreation(rows)[j].box
    ensures var (a, b) := (ByCreation(rows)[i], ByCreation(rows)[j]);
            Number(a, rows) < Number(b, rows) && Before(a, b)
  {
    var sorted := ByCreation(rows);
    UniquePermuted(rows, sorted);
    RankInOrder(rows, i);
    RankInOrder(rows, j);
    PrefixCount(sorted, sorted[i].box, i, j);
    assert NotAfter()(sorted[i], sorted[j]);
  }

  lemma PlaceInOrder(rows: seq<DayRow>, row: DayRow) returns (i: nat)
    requires row in rows
    ensures i < |rows| && ByCreation(rows)[i] == row
  {
    SameMembers(rows, ByCreation(rows));
    i :| 0 <= i < |rows| && ByCreation(rows)[i] == row;
  }

  /** Within a box numbers follow creation order, so no two bookings share one. */
  lemma NumbersFollowCreation(rows: seq<DayRow>, a: DayRow, b: DayRow)
    requires UniqueIds(rows) && a in rows && b in rows && a.box == b.box
    ensures Number(a, rows) < Number(b, rows) <==> Before(a, b)
    ensures Number(a, rows) == Number(b, rows) <==> a == b
  {
    var i := PlaceInOrder(rows, a);
    var j := PlaceInOrder(rows, b);
    if i < j {
      OrderIsNumberOrder(rows, i, j);
    } else if j < i {
      OrderIsNumberOrder(rows, j, i);
    }
  }

  /** None exceeds the number of the box's bookings. */
  lemma NumbersAreInRange(rows: seq<DayRow>, row: DayRow)
    requires UniqueIds(rows) && row in rows
    ensures TICKET_NUMBER_BASE < Number(row, rows) <= TICKET_NUMBER_BASE + Sum(InBox(row.box), rows)
  {
    var sorted := ByCreation(rows);
    var i := PlaceInOrder(rows, row);
    RankPositive(row, rows);
    RankInOrder(rows, i);
    PrefixCount(sorted, row.box, i, |sorted|);
    assert sorted[..|sorted|] == sorted;
    SumPermutation(InBox(row.box), rows, sorted);
  }

  // ----- later changes -----

  /** Adding bookings moves a number up by exactly the added bookings of the box that
      sort before it. */
  lemma InsertShifts(rows: seq<DayRow>, more: seq<DayRow>, after: seq<DayRow>, row: DayRow)
    requires multiset(after) == multiset(rows + more)
    ensures Number(row, after) == Number(row, rows) + Sum(EarlierInBox(row), more)
  {
    SumPermutation(EarlierInBox(row), after, rows + more);
    SumAppend(EarlierInBox(row), rows, more);
  }

  lemma {:induction false} EarlierCount(row: DayRow, more: seq<DayRow>)
    ensures Sum(EarlierInBox(row), more) >= 0
    ensures Sum(EarlierInBox(row), more) == 0 <==> forall r :: r in more ==> !(r.box == row.box && Before(r, row))
  {
    if more != [] {
      var n := |more| - 1;
      EarlierCount(row, more[..n]);
      assert forall r :: r in more <==> r in more[..n] || r == more[n];
    }
  }

  /** A booking keeps its ticket exactly when no added booking of its box sorts before it:
      one created at the same instant can still take its number, if its id is smaller. */
  lemma InsertRenumbers(rows: seq<DayRow>, more: seq<DayRow>, after: seq<DayRow>, row: DayRow)
    requires multiset(after) == multiset(rows + more)
    ensures TicketOf(row, after) == TicketOf(row, rows) <==>
            forall r :: r in more ==> r.box == row.box ==> !Before(r, row)
  {
    InsertShifts(rows, more, after, row);
    EarlierCount(row, more);
    TicketsDecode(row.box, Number(row, after), row.box, Number(row, rows));
  }

  /** For instance, one created at the same instant with a smaller id takes number 11 from
      the only booking of the box. */
  lemma SmallerIdRenumbers(created: Instant, box: nat, status: Status)
    ensures var (kept, added) := (DayRow(2, created, box, status), DayRow(1, created, box, status));
            && TicketOf(kept, [kept]) == Ticket(box, 11)
            && TicketOf(kept, [kept, added]) == Ticket(box, 12) && TicketOf(added, [kept, added]) == Ticket(box, 11)
            && Ticket(box, 11) != Ticket(box, 12)
  {
    var kept, added := DayRow(2, created, box, status), DayRow(1, created, box, status);
    RankOfPair(kept, kept, added);
    RankOfPair(added, kept, added);
    SumOne(EarlierInBox(kept), kept);
    TicketsDecode(box, 11, box, 12);
  }

  lemma RankOfPair(row: DayRow, a: DayRow, b: DayRow)
    ensures Rank(row, [a, b]) == 1 + EarlierInBox(row)(a) + EarlierInBox(row)(b)
  {
    assert [a, b] == [a] + [b];
    SumAppend(EarlierInBox(row), [a], [b]);
    SumOne(EarlierInBox(row), a);
    SumOne(EarlierInBox(row), b);
  }

  /** Neither a status change nor the list's order renumbers anything. */
  lemma {:induction false} StatusesDoNotMatter(rows: seq<DayRow>, after: seq<DayRow>, row: DayRow, status: Status)
    requires |rows| == |after| && forall i :: 0 <= i < |rows| ==> after[i] == rows[i].(status := after[i].status)
    ensures TicketOf(row.(status := status), after) == TicketOf(row, rows)
  {
    if rows != [] {
      var n := |rows| - 1;
      StatusesDoNotMatter(rows[..n], after[..n], row, status);
      TicketsDecode(row.box, Number(row.(status := status), after[..n]), row.box, Number(row, rows[..n]));
    }
  }

  // ----- whole tickets -----

  /** A ticket determines the prefix and the number. */
  lemma TicketsDecode(a: nat, m: nat, b: nat, n: nat)
    ensures Ticket(a, m) == Ticket(b, n) <==> Letter(a) == Letter(b) && m == n
  {
    assert Ticket(a, m)[..2] == TicketPrefix(a) && Ticket(b, n)[..2] == TicketPrefix(b);
    assert Ticket(a, m)[2..] == Itoa(m) && Ticket(b, n)[2..] == Itoa(n);
    assert TicketPrefix(a)[0] == LetterOf(Letter(a)) && TicketPrefix(b)[0] == LetterOf(Letter(b));
    ItoaInjective(m, n);
    if Letter(a) == Letter(b) {
      assert TicketPrefix(a) == TicketPrefix(b);
    } else {
      assert TicketPrefix(a)[0] != TicketPrefix(b)[0];
    }
  }

  /** Among boxes 1..26 and the overflow box only box 15 and the overflow box share one. */
  lemma SharedLetters(a: nat, b: nat)
    requires a <= 26 && b <= 26 && a != b
    ensures Letter(a) == Letter(b) <==> {a, b} == {0, 15}
  {
    if Letter(a) == Letter(b) {
      assert a in {0, 15} && b in {0, 15};
    } else if a in {0, 15} {
      assert b !in {0, 15};
      assert b !in {0, 15} && b in {a, b};
    }
  }

  ghost predicate TicketsDistinct(rows: seq<DayRow>) {
    forall a, b :: a in rows && b in rows && a != b ==> TicketOf(a, rows) != TicketOf(b, rows)
  }

  ghost predicate Used(box: nat, rows: seq<DayRow>) {
    exists r :: r in rows && r.box == box
  }

  /** The day's tickets are distinct exactly when no two used boxes share a letter:
      the first bookings of two that do are both number 11. */
  lemma DistinctWhenLettersAre(rows: seq<DayRow>)
    requires UniqueIds(rows)
    ensures TicketsDistinct(rows) <==>
            forall a: nat, b: nat :: Used(a, rows) && Used(b, rows) && a != b ==> Letter(a) != Letter(b)
  {
    if forall a: nat, b: nat :: Used(a, rows) && Used(b, rows) && a != b ==> Letter(a) != Letter(b) {
      forall a, b | a in rows && b in rows && a != b ensures TicketOf(a, rows) != TicketOf(b, rows) {
        TicketsDecode(a.box, Number(a, rows), b.box, Number(b, rows));
        assert Used(a.box, rows) && Used(b.box, rows);
        if a.box == b.box {
          NumbersFollowCreation(rows, a, b);
        }
      }
    }
    forall a: nat, b: nat | Used(a, rows) && Used(b, rows) && a != b && Letter(a) == Letter(b)
      ensures !TicketsDistinct(rows)
    {
      var first := FirstInBox(rows, a);
      var second := FirstInBox(rows, b);
      TicketsDecode(a, Number(first, rows), b, Number(second, rows));
    }
  }

  lemma FirstInBox(rows: seq<DayRow>, box: nat) returns (row: DayRow)
    requires UniqueIds(rows) && Used(box, rows)
    ensures row in rows && row.box == box && Number(row, rows) == TICKET_NUMBER_BASE + 1
  {
    var r :| r in rows && r.box == box;
    NumbersAreInRange(rows, r);
    row := NumbersHaveNoGaps(rows, box, 1);
  }

  /** With boxes 1..26 and overflow, only box 15 on a day with overflow breaks it. */
  lemma DistinctUnlessBox15(rows: seq<DayRow>)
    requires UniqueIds(rows) && forall r :: r in rows ==> r.box <= 26
    ensures TicketsDistinct(rows) <==> !(Used(0, rows) && Used(15, rows))
  {
    DistinctWhenLettersAre(rows);
    forall a: nat, b: nat | Used(a, rows) && Used(b, rows) && a != b
      ensures Letter(a) == Letter(b) ==> Used(0, rows) && Used(15, rows)
    {
      SharedLetters(a, b);
      assert Letter(a) == Letter(b) ==> 0 in {a, b} && 15 in {a, b};
    }
    assert Letter(0) == Letter(15);
  }

  /** A manual booking is answered with the ticket of a one-row list, always number 11;
      that is its ticket on the day list exactly when it is its box's first. */
  lemma ManualTicketIsFirst(rows: seq<DayRow>, row: DayRow)
    requires UniqueIds(rows) && row in rows
    ensures TicketOf(row, [row]) == Ticket(row.box, TICKET_NUMBER_BASE + 1)
    ensures TicketOf(row, [row]) == TicketOf(row, rows) <==>
            forall r :: r in rows && r.box == row.box ==> r == row || Before(row, r)
  {
    SumOne(EarlierInBox(row), row);
    EarlierCount(row, rows);
    TicketsDecode(row.box, Number(row, [row]), row.box, Number(row, rows));
    forall r | r in rows && r.box == row.box ensures !Before(r, row) <==> r == row || Before(row, r) {
      NumbersFollowCreation(rows, r, row);
      var i :| 0 <= i < |rows| && rows[i] == r;
      var j :| 0 <= j < |rows| && rows[j] == row;
      assert r.id == row.id ==> i == j;
    }
  }

  // ----- how a ticket reads -----

  const ALPHABET: string := "ABCDEFGHIJKLMNOPQRSTUVWXYZ"

  /** Boxes 1 to 26 have the letters of the alphabet in order, the next ones start over, and
      overflow has an O; a hyphen and the decimal number follow. */
  lemma TicketReads(box: nat, n: nat)
    ensures |Ticket(box, n)| > 2 && Ticket(box, n)[1] == '-'
    ensures 1 <= box <= 26 ==> Ticket(box, n)[0] == ALPHABET[box - 1]
    ensures Ticket(0, n)[0] == 'O' && Ticket(box + 27, n)[0] == Ticket(box + 1, n)[0]
    ensures AllDigits(Ticket(box, n)[2..]) && Value(Ticket(box, n)[2..]) == n
    ensures n > 0 ==> Ticket(box, n)[2] != '0'
  {
    assert Ticket(box, n)[2..] == Itoa(n);
    if 1 <= box <= 26 {
      AlphabetInOrder(box - 1);
    }
    assert (box + 26) % 26 == box % 26;
  }

  lemma AlphabetInOrder(k: nat)
    requires k < 26
    ensures ALPHABET[k] as int == 'A' as int + k
  {
  }

  /** Of two bookings of a box the one created first has the smaller number, the one with the
      smaller id if they were created together; the first of a box has number 11. */
  lemma NumbersFollowTime(rows: seq<DayRow>, a: DayRow, b: DayRow)
    requires UniqueIds(rows) && a in rows && b in rows && a.box == b.box
    ensures a.created < b.created || (a.created == b.created && a.id < b.id) ==> Number(a, rows) < Number(b, rows)
    ensures (forall r :: r in rows && r.box == a.box && r != a ==> a.created < r.created) ==> Number(a, rows) == 11
  {
    NumbersFollowCreation(rows, a, b);
    if forall r :: r in rows && r.box == a.box && r != a ==> a.created < r.created {
      EarlierCount(a, rows);
    }
  }
}
