/** Flight-itinerary reconstruction of main.go: the route map built from the
    tickets (createRouteMap), the destructive depth-first search that emits
    airports in post-order (DFSearch), the in-place reversal of that buffer
    (reverseStrings) and the driver that chains them (findRoutes).

    DFSearch is proved against Walk, a recursive function that says what one
    call does to the route map and which airports it appends to the route. */
module Itinerary {
  import opened GoStrings
  import opened Sorting

  type Node = String

  /** One ticket of the request: `ticket[0]` is where it leaves from,
      `ticket[1]` where it goes. */
  datatype Ticket = Ticket(origin: Node, destination: Node)

  /** The route map: each origin with the destinations of its unused tickets. */
  type Table = map<Node, seq<Node>>

  /** `m[k]` in Go: a missing key reads as the empty (nil) slice. */
  function Out(m: Table, k: Node): seq<Node> {
    if k in m then m[k] else []
  }

  // ---------------------------------------------------------------------------
  // Counting the edges a route map still holds

  /** The destinations of all remaining tickets, over all origins. */
  ghost function Dests(m: Table): multiset<Node>
    decreases |m|
  {
    if m == map[] then multiset{}
    else
      var k :| k in m;
      assert |m - {k}| < |m| by { assert (m - {k}).Keys == m.Keys - {k}; }
      multiset(m[k]) + Dests(m - {k})
  }

  /** Number of remaining tickets. */
  ghost function EdgeCount(m: Table): nat {
    |Dests(m)|
  }

  lemma {:induction false} DestsRemove(m: Table, k: Node)
    requires k in m
    ensures Dests(m) == multiset(m[k]) + Dests(m - {k})
    decreases |m|
  {
    var j :| j in m && Dests(m) == multiset(m[j]) + Dests(m - {j});
    if j != k {
      var withoutJ, withoutK := m - {j}, m - {k};
      assert |withoutJ| < |m| && |withoutK| < |m| by {
        assert withoutJ.Keys == m.Keys - {j} && withoutK.Keys == m.Keys - {k};
      }
      DestsRemove(withoutJ, k);
      DestsRemove(withoutK, j);
      assert withoutJ[k] == m[k] && withoutK[j] == m[j];
      assert withoutJ - {k} == withoutK - {j};
    }
  }

  /** Replacing the list of one origin swaps its destinations in the total. */
  lemma DestsUpdate(m: Table, k: Node, v: seq<Node>)
    ensures Dests(m[k := v]) + multiset(Out(m, k)) == Dests(m) + multiset(v)
  {
    DestsRemove(m[k := v], k);
    assert m[k := v] - {k} == m - {k};
    if k in m {
      DestsRemove(m, k);
    } else {
      assert m - {k} == m;
    }
  }

  /** Route maps with the same keys whose lists are permutations of each other
      hold the same remaining tickets. */
  lemma {:induction false} DestsPermuted(m: Table, n: Table)
    requires m.Keys == n.Keys
    requires forall k :: k in m ==> multiset(m[k]) == multiset(n[k])
    ensures Dests(m) == Dests(n)
    decreases |m|
  {
    if m != map[] {
      var k :| k in m;
      DestsRemove(m, k);
      DestsRemove(n, k);
      assert (m - {k}).Keys == m.Keys - {k};
      DestsPermuted(m - {k}, n - {k});
    }
  }

  /** Taking the head of a non-empty list removes exactly that one ticket. */
  lemma PopConsumesOne(m: Table, k: Node)
    requires Out(m, k) != []
    ensures Dests(m[k := m[k][1..]]) + multiset{m[k][0]} == Dests(m)
    ensures EdgeCount(m[k := m[k][1..]]) + 1 == EdgeCount(m)
  {
    DestsUpdate(m, k, m[k][1..]);
    assert m[k] == [m[k][0]] + m[k][1..];
    assert multiset(m[k]) == multiset{m[k][0]} + multiset(m[k][1..]);
    MultisetCancel(Dests(m[k := m[k][1..]]) + multiset{m[k][0]}, Dests(m), multiset(m[k][1..]));
  }

  lemma MultisetCancel(a: multiset<Node>, b: multiset<Node>, c: multiset<Node>)
    requires a + c == b + c
    ensures a == b
  {
    assert forall x :: a[x] == (a + c)[x] - c[x] && b[x] == (b + c)[x] - c[x];
  }

  // ---------------------------------------------------------------------------
  // createRouteMap

  /** Destinations of the tickets leaving `k`, in ticket order. */
  function DestinationsFrom(tickets: seq<Ticket>, k: Node): seq<Node> {
    if tickets == [] then []
    else
      var last := tickets[|tickets| - 1];
      DestinationsFrom(tickets[..|tickets| - 1], k) + (if last.origin == k then [last.destination] else [])
  }

  /** Destinations of all tickets, in ticket order. */
  function Destinations(tickets: seq<Ticket>): (r: seq<Node>)
    ensures |r| == |tickets|
  {
    if tickets == [] then [] else Destinations(tickets[..|tickets| - 1]) + [tickets[|tickets| - 1].destination]
  }

  function Origins(tickets: seq<Ticket>): set<Node> {
    set t | t in tickets :: t.origin
  }

  /** The route map after the append loop, before sorting: each ticket in turn
      appends its destination to its origin's list. */
  function Appended(tickets: seq<Ticket>): Table {
    if tickets == [] then map[]
    else
      var prev, t := Appended(tickets[..|tickets| - 1]), tickets[|tickets| - 1];
      prev[t.origin := Out(prev, t.origin) + [t.destination]]
  }

  /** The route map createRouteMap returns: one entry per origin, holding the
      destinations of that origin's tickets in ascending order. */
  function RouteMap(tickets: seq<Ticket>): (m: Table)
    ensures forall k :: k in m <==> exists i :: 0 <= i < |tickets| && tickets[i].origin == k
    ensures forall k :: k in m ==> Sorted(m[k])
    ensures forall k :: k in m ==> multiset(m[k]) == multiset(DestinationsFrom(tickets, k))
  {
    AppendedGroups(tickets);
    assert forall i :: 0 <= i < |tickets| ==> tickets[i] in tickets;
    var appended := Appended(tickets);
    map k | k in appended :: Sort(appended[k])
  }

  lemma {:induction false} NoOriginNoDestinations(tickets: seq<Ticket>, k: Node)
    requires k !in Origins(tickets)
    ensures DestinationsFrom(tickets, k) == []
  {
    if tickets != [] {
      var init := tickets[..|tickets| - 1];
      assert tickets == init + [tickets[|tickets| - 1]];
      assert Origins(init) <= Origins(tickets);
      NoOriginNoDestinations(init, k);
    }
  }

  /** After the append loop, every origin has a list, and it holds the
      destinations of that origin's tickets in ticket order. */
  lemma {:induction false} AppendedGroups(tickets: seq<Ticket>)
    ensures Appended(tickets).Keys == Origins(tickets)
    ensures forall k :: k in Appended(tickets) ==> Appended(tickets)[k] == DestinationsFrom(tickets, k)
  {
    if tickets != [] {
      var init, t := tickets[..|tickets| - 1], tickets[|tickets| - 1];
      assert tickets == init + [t];
      assert Origins(tickets) == Origins(init) + {t.origin};
      AppendedGroups(init);
      var prev := Appended(init);
      forall k | k in Appended(tickets) ensures Appended(tickets)[k] == DestinationsFrom(tickets, k) {
        if k == t.origin && k !in prev {
          NoOriginNoDestinations(init, k);
        }
      }
    }
  }

  /** How often list `k` holds `d` is how often ticket k->d was handed in. */
  lemma {:induction false} DestinationsFromCount(tickets: seq<Ticket>, k: Node, d: Node)
    ensures multiset(DestinationsFrom(tickets, k))[d] == multiset(tickets)[Ticket(k, d)]
  {
    if tickets != [] {
      var init := tickets[..|tickets| - 1];
      assert tickets == init + [tickets[|tickets| - 1]];
      DestinationsFromCount(init, k, d);
    }
  }

  /** createRouteMap keeps every ticket exactly once: for every origin `k` and
      destination `d`, the list of `k` holds `d` as many times as the ticket
      k->d occurs in the request (zero times for an airport nothing leaves). */
  lemma RouteMapCounts(tickets: seq<Ticket>, k: Node, d: Node)
    ensures multiset(Out(RouteMap(tickets), k))[d] == multiset(tickets)[Ticket(k, d)]
  {
    DestinationsFromCount(tickets, k, d);
    if k !in RouteMap(tickets) {
      assert forall i :: 0 <= i < |tickets| ==> tickets[i] != Ticket(k, d);
      assert Ticket(k, d) !in tickets;
    }
  }

  /** All tickets of the request sit in the route map before sorting. */
  lemma {:induction false} AppendedEdges(tickets: seq<Ticket>)
    ensures Dests(Appended(tickets)) == multiset(Destinations(tickets))
  {
    if tickets == [] {
      assert Appended(tickets) == map[];
    } else {
      var init := tickets[..|tickets| - 1];
      var t := tickets[|tickets| - 1];
      assert tickets == init + [t];
      AppendedEdges(init);
      var before := Out(Appended(init), t.origin);
      DestsUpdate(Appended(init), t.origin, before + [t.destination]);
      assert multiset(before + [t.destination]) == multiset(before) + multiset{t.destination};
      MultisetCancel(Dests(Appended(tickets)), Dests(Appended(init)) + multiset{t.destination}, multiset(before));
    }
  }

  /** The route map holds exactly the destinations of the request's tickets,
      one per ticket. */
  lemma RouteMapEdges(tickets: seq<Ticket>)
    ensures Dests(RouteMap(tickets)) == multiset(Destinations(tickets))
    ensures EdgeCount(RouteMap(tickets)) == |tickets|
  {
    var m, n := RouteMap(tickets), Appended(tickets);
    AppendedGroups(tickets);
    AppendedEdges(tickets);
    DestsPermuted(m, n);
  }

  /** createRouteMap: append each ticket's destination to its origin's list,
      then sort every list ascending by strings.Compare. */
  method CreateRouteMap(tickets: seq<Ticket>) returns (m: Table)
    ensures m == RouteMap(tickets)
    ensures tickets == [] ==> m == map[]
    ensures EdgeCount(m) == |tickets|
  {
    m := map[];
    for i := 0 to |tickets|
      invariant m == Appended(tickets[..i])
    {
      var ticket := tickets[i];
      m := m[ticket.origin := Out(m, ticket.origin) + [ticket.destination]];
      assert tickets[..i + 1][..i] == tickets[..i];
    }
    assert m == Appended(tickets) by { assert tickets[..|tickets|] == tickets; }
    ghost var appended := m;
    var keys := m.Keys;
    while keys != {}
      invariant keys <= m.Keys == appended.Keys
      invariant forall k :: k in m ==> m[k] == if k in keys then appended[k] else Sort(appended[k])
      decreases keys
    {
      var key :| key in keys;
      ghost var before, keysBefore := m, keys;
      m := m[key := Sort(m[key])];
      keys := keys - {key};
      forall k | k in m ensures m[k] == if k in keys then appended[k] else Sort(appended[k]) {
        if k != key {
          assert m[k] == before[k] && (k in keys <==> k in keysBefore);
        }
      }
    }
    SortedListsMakeRouteMap(tickets, m);
    assert EdgeCount(m) == |tickets| by { RouteMapEdges(tickets); }
  }

  /** Sorting every list of the appended map gives the route map. */
  lemma SortedListsMakeRouteMap(tickets: seq<Ticket>, m: Table)
    requires m.Keys == Appended(tickets).Keys
    requires forall k :: k in m ==> m[k] == Sort(Appended(tickets)[k])
    ensures m == RouteMap(tickets)
  {
  }

  // ---------------------------------------------------------------------------
  // DFSearch, as a function

  /** What one call DFSearch(m, route, curr) leaves behind: the route map and
      the airports appended to the route. */
  datatype Walked = Walked(table: Table, postOrder: seq<Node>)

  /** While `curr` has tickets left, take the first one, search from its
      destination, and go on with `curr`; finally emit `curr`. */
  function Walk(m: Table, curr: Node): (w: Walked)
    ensures EdgeCount(w.table) <= EdgeCount(m)
    decreases EdgeCount(m)
  {
    if Out(m, curr) == [] then Walked(m, [curr])
    else
      PopConsumesOne(m, curr);
      var first := Walk(m[curr := m[curr][1..]], m[curr][0]);
      var rest := Walk(first.table, curr);
      Walked(rest.table, first.postOrder + rest.postOrder)
  }

  /** The search Walk starts from the destination of the first ticket of `curr`. */
  function FirstLeg(m: Table, curr: Node): Walked
    requires Out(m, curr) != []
  {
    Walk(m[curr := m[curr][1..]], m[curr][0])
  }

  /** One step of Walk: the first leg uses at least one ticket, and the rest of
      the search continues from `curr` in the table the first leg left. */
  lemma WalkUnfold(m: Table, curr: Node)
    requires Out(m, curr) != []
    ensures EdgeCount(m[curr := m[curr][1..]]) < EdgeCount(m)
    ensures EdgeCount(FirstLeg(m, curr).table) < EdgeCount(m)
    ensures Walk(m, curr).table == Walk(FirstLeg(m, curr).table, curr).table
    ensures Walk(m, curr).postOrder == FirstLeg(m, curr).postOrder + Walk(FirstLeg(m, curr).table, curr).postOrder
  {
    PopConsumesOne(m, curr);
  }

  /** `s` is what remains of `t` after dropping some elements from the front. */
  predicate IsSuffix(s: seq<Node>, t: seq<Node>) {
    |s| <= |t| && s == t[|t| - |s|..]
  }

  /** The search adds no origin and removes none, and only ever drops tickets
      from the front of a list. */
  lemma {:induction false} WalkKeepsKeys(m: Table, curr: Node)
    ensures Walk(m, curr).table.Keys == m.Keys
    decreases EdgeCount(m)
  {
    if Out(m, curr) != [] {
      WalkUnfold(m, curr);
      WalkKeepsKeys(m[curr := m[curr][1..]], m[curr][0]);
      WalkKeepsKeys(FirstLeg(m, curr).table, curr);
    }
  }

  lemma {:induction false} WalkShrinksLists(m: Table, curr: Node)
    ensures Walk(m, curr).table.Keys == m.Keys
    ensures forall k :: k in m ==> IsSuffix(Walk(m, curr).table[k], m[k])
    decreases EdgeCount(m)
  {
    WalkKeepsKeys(m, curr);
    if Out(m, curr) != [] {
      WalkUnfold(m, curr);
      var m1 := m[curr := m[curr][1..]];
      var first := FirstLeg(m, curr);
      WalkShrinksLists(m1, m[curr][0]);
      WalkShrinksLists(first.table, curr);
      forall k | k in m ensures IsSuffix(Walk(m, curr).table[k], m[k]) {
        PopShrinks(m, curr, k);
        SuffixTransitive(first.table[k], m1[k], m[k]);
        SuffixTransitive(Walk(first.table, curr).table[k], first.table[k], m[k]);
      }
    }
  }

  lemma PopShrinks(m: Table, curr: Node, k: Node)
    requires Out(m, curr) != [] && k in m
    ensures IsSuffix(m[curr := m[curr][1..]][k], m[k])
  {
  }

  lemma SuffixTransitive(a: seq<Node>, b: seq<Node>, c: seq<Node>)
    requires IsSuffix(a, b) && IsSuffix(b, c)
    ensures IsSuffix(a, c)
  {
    assert a == c[|c| - |b|..][|b| - |a|..];
  }

  /** Every list stays sorted, being a suffix of a sorted list. */
  lemma WalkKeepsSorted(m: Table, curr: Node)
    requires forall k :: k in m ==> Sorted(m[k])
    ensures forall k :: k in Walk(m, curr).table ==> Sorted(Walk(m, curr).table[k])
  {
    WalkShrinksLists(m, curr);
    var w := Walk(m, curr).table;
    forall k | k in w ensures Sorted(w[k]) {
      SuffixSorted(m[k], |m[k]| - |w[k]|);
    }
  }

  /** When the search returns, no ticket leaves the airport it started from. */
  lemma {:induction false} WalkExhausts(m: Table, curr: Node)
    ensures Out(Walk(m, curr).table, curr) == []
    decreases EdgeCount(m)
  {
    if Out(m, curr) != [] {
      WalkUnfold(m, curr);
      WalkExhausts(FirstLeg(m, curr).table, curr);
    }
  }

  /** Each call emits its own airport plus the destination of every ticket it
      uses: the emitted airports and the tickets left over together make up the
      tickets it was given plus `curr`. */
  lemma {:induction false} WalkEmits(m: Table, curr: Node)
    ensures multiset(Walk(m, curr).postOrder) + Dests(Walk(m, curr).table) == Dests(m) + multiset{curr}
    ensures |Walk(m, curr).postOrder| + EdgeCount(Walk(m, curr).table) == EdgeCount(m) + 1
    decreases EdgeCount(m)
  {
    if Out(m, curr) != [] {
      WalkUnfold(m, curr);
      PopConsumesOne(m, curr);
      var m1 := m[curr := m[curr][1..]];
      var first := FirstLeg(m, curr);
      var rest := Walk(first.table, curr);
      WalkEmits(m1, m[curr][0]);
      WalkEmits(first.table, curr);
      calc {
        multiset(Walk(m, curr).postOrder) + Dests(Walk(m, curr).table);
        multiset(first.postOrder + rest.postOrder) + Dests(rest.table);
        multiset(first.postOrder) + (multiset(rest.postOrder) + Dests(rest.table));
        multiset(first.postOrder) + Dests(first.table) + multiset{curr};
        Dests(m1) + multiset{m[curr][0]} + multiset{curr};
        Dests(m) + multiset{curr};
      }
    }
  }

  /** The airport a call starts from is the last one it emits. */
  lemma {:induction false} WalkEndsAt(m: Table, curr: Node)
    ensures Walk(m, curr).postOrder != []
    ensures Walk(m, curr).postOrder[|Walk(m, curr).postOrder| - 1] == curr
    decreases EdgeCount(m)
  {
    if Out(m, curr) != [] {
      WalkUnfold(m, curr);
      WalkEndsAt(FirstLeg(m, curr).table, curr);
    }
  }

  // ---------------------------------------------------------------------------
  // DFSearch, as the source runs it

  /** The state DFSearch shares between its recursive calls: the route map it
      consumes and the route it appends to through a pointer. */
  class RouteSearch {
    var table: Table
    var route: seq<Node>

    constructor (m: Table)
      ensures table == m && route == []
    {
      table := m;
      route := [];
    }

    /** DFSearch(m, &route, curr). */
    method DFSearch(curr: Node)
      modifies this
      decreases EdgeCount(table)
      ensures table == Walk(old(table), curr).table
      ensures route == old(route) + Walk(old(table), curr).postOrder
      ensures Out(table, curr) == []
      ensures table.Keys == old(table).Keys
      ensures forall k :: k in old(table) ==> IsSuffix(table[k], old(table)[k])
      ensures multiset(route[|old(route)|..]) + Dests(table) == Dests(old(table)) + multiset{curr}
      ensures |route| == |old(route)| + 1 + EdgeCount(old(table)) - EdgeCount(table)
      ensures route[|route| - 1] == curr
    {
      ghost var m0, r0 := table, route;
      ghost var w := Walk(table, curr);
      while Out(table, curr) != []
        invariant EdgeCount(table) <= EdgeCount(m0)
        invariant Walk(table, curr).table == w.table
        invariant route + Walk(table, curr).postOrder == r0 + w.postOrder
        decreases EdgeCount(table)
      {
        ghost var before, routeBefore := table, route;
        var next := table[curr][0];
        table := table[curr := table[curr][1..]];
        assert EdgeCount(table) < EdgeCount(before) by { WalkUnfold(before, curr); }
        DFSearch(next);
        ghost var first := FirstLeg(before, curr);
        assert table == first.table && route == routeBefore + first.postOrder;
        assert Walk(table, curr).table == w.table by {
          WalkUnfold(before, curr);
        }
        assert route + Walk(table, curr).postOrder == r0 + w.postOrder by {
          WalkUnfold(before, curr);
          RouteStep(routeBefore, first.postOrder, Walk(first.table, curr).postOrder, r0 + w.postOrder);
        }
      }
      assert Walk(table, curr) == Walked(table, [curr]);
      route := route + [curr];
      WalkExhausts(m0, curr);
      WalkShrinksLists(m0, curr);
      WalkEmits(m0, curr);
      WalkEndsAt(m0, curr);
      assert route[|r0|..] == w.postOrder;
    }
  }

  /** Emitting a call's first leg, then the rest of its walk, is emitting its whole walk. */
  lemma RouteStep(route: seq<Node>, firstLeg: seq<Node>, rest: seq<Node>, total: seq<Node>)
    requires route + (firstLeg + rest) == total
    ensures (route + firstLeg) + rest == total
  {
  }

  // ---------------------------------------------------------------------------
  // reverseStrings

  function Reversed<T>(s: seq<T>): seq<T> {
    if s == [] then [] else [s[|s| - 1]] + Reversed(s[..|s| - 1])
  }

  lemma {:induction false} ReversedLength<T>(s: seq<T>)
    ensures |Reversed(s)| == |s|
  {
    if s != [] { ReversedLength(s[..|s| - 1]); }
  }

  /** Position k of the reversal holds position n-1-k of the original. */
  lemma {:induction false} ReversedIndex<T>(s: seq<T>, k: nat)
    requires k < |s|
    ensures |Reversed(s)| == |s| && Reversed(s)[k] == s[|s| - 1 - k]
  {
    ReversedLength(s);
    if k > 0 {
      ReversedIndex(s[..|s| - 1], k - 1);
    }
  }

  /** Reversing twice gives back the original. */
  lemma ReversedTwice<T>(s: seq<T>)
    ensures Reversed(Reversed(s)) == s
  {
    ReversedLength(s);
    ReversedLength(Reversed(s));
    forall k | 0 <= k < |s| ensures Reversed(Reversed(s))[k] == s[k] {
      ReversedIndex(Reversed(s), k);
      ReversedIndex(s, |s| - 1 - k);
    }
  }

  /** reverseStrings: swap from both ends towards the middle. */
  method ReverseStrings(s: array<Node>)
    modifies s
    ensures s[..] == Reversed(old(s[..]))
  {
    var i, j := 0, s.Length - 1;
    while i < j
      invariant 0 <= i <= j + 2 && j == s.Length - 1 - i
      invariant forall k :: 0 <= k < i ==> s[k] == old(s[s.Length - 1 - k]) && s[s.Length - 1 - k] == old(s[k])
      invariant forall k :: i <= k <= j ==> s[k] == old(s[k])
    {
      s[i], s[j] := s[j], s[i];
      i := i + 1;
      j := j - 1;
    }
    ghost var original := old(s[..]);
    ReversedLength(original);
    forall k | 0 <= k < s.Length ensures s[..][k] == Reversed(original)[k] {
      ReversedIndex(original, k);
    }
  }

  // ---------------------------------------------------------------------------
  // findRoutes

  /** The itinerary findRoutes answers for a request. */
  function ItineraryOf(tickets: seq<Ticket>, source: Node): seq<Node> {
    Reversed(Walk(RouteMap(tickets), source).postOrder)
  }

  /** The order of the tickets in the request does not matter: the same
      tickets in any order give the same route map. */
  lemma RouteMapOrderFree(t1: seq<Ticket>, t2: seq<Ticket>)
    requires multiset(t1) == multiset(t2)
    ensures RouteMap(t1) == RouteMap(t2)
  {
    var m1, m2 := RouteMap(t1), RouteMap(t2);
    assert m1.Keys == m2.Keys by {
      SameOrigins(t1, t2);
      SameOrigins(t2, t1);
    }
    assert forall k :: k in m1 ==> m1[k] == m2[k] by {
      forall k | k in m1 ensures m1[k] == m2[k] {
        SameDestinations(t1, t2, k);
      }
    }
    SameEntries(m1, m2);
  }

  lemma SameEntries(m: Table, n: Table)
    requires m.Keys == n.Keys
    requires forall k :: k in m ==> m[k] == n[k]
    ensures m == n
  {
  }

  lemma SameOrigins(t1: seq<Ticket>, t2: seq<Ticket>)
    requires multiset(t1) == multiset(t2)
    ensures forall k :: k in RouteMap(t1) ==> k in RouteMap(t2)
  {
    forall k | k in RouteMap(t1) ensures k in RouteMap(t2) {
      var i :| 0 <= i < |t1| && t1[i].origin == k;
      assert t1[i] in multiset(t2);
      var j :| 0 <= j < |t2| && t2[j] == t1[i];
    }
  }

  lemma SameDestinations(t1: seq<Ticket>, t2: seq<Ticket>, k: Node)
    requires multiset(t1) == multiset(t2) && k in RouteMap(t1) && k in RouteMap(t2)
    ensures RouteMap(t1)[k] == RouteMap(t2)[k]
  {
    var a, b := RouteMap(t1)[k], RouteMap(t2)[k];
    assert multiset(a) == multiset(b) by {
      forall d ensures multiset(a)[d] == multiset(b)[d] {
        RouteMapCounts(t1, k, d);
        RouteMapCounts(t2, k, d);
      }
    }
    SortedPermutationUnique(a, b);
  }

  /** Hence the answer does not depend on the order of the tickets either. */
  lemma ItineraryOrderFree(t1: seq<Ticket>, t2: seq<Ticket>, source: Node)
    requires multiset(t1) == multiset(t2)
    ensures ItineraryOf(t1, source) == ItineraryOf(t2, source)
  {
    RouteMapOrderFree(t1, t2);
  }

  /** The itinerary starts at the requested source. */
  lemma ItineraryStartsAtSource(tickets: seq<Ticket>, source: Node)
    ensures |ItineraryOf(tickets, source)| >= 1 && ItineraryOf(tickets, source)[0] == source
  {
    var post := Walk(RouteMap(tickets), source).postOrder;
    WalkEndsAt(RouteMap(tickets), source);
    ReversedIndex(post, 0);
  }

  /** One airport per used ticket plus the source: never more than one airport
      per ticket plus one, and exactly that many when every ticket is used. */
  lemma ItineraryLength(tickets: seq<Ticket>, source: Node)
    ensures |ItineraryOf(tickets, source)| + EdgeCount(Walk(RouteMap(tickets), source).table) == |tickets| + 1
    ensures |ItineraryOf(tickets, source)| <= |tickets| + 1
  {
    WalkEmits(RouteMap(tickets), source);
    RouteMapEdges(tickets);
    ReversedLength(Walk(RouteMap(tickets), source).postOrder);
  }

  /** Apart from the leading source, every airport of the itinerary is the
      destination of its own ticket. */
  lemma ItineraryUsesTickets(tickets: seq<Ticket>, source: Node)
    ensures multiset(ItineraryOf(tickets, source)) <= multiset{source} + multiset(Destinations(tickets))
  {
    var w := Walk(RouteMap(tickets), source);
    assert multiset(w.postOrder) + Dests(w.table) == multiset{source} + multiset(Destinations(tickets)) by {
      WalkEmits(RouteMap(tickets), source);
      RouteMapEdges(tickets);
    }
    PartOfSum(multiset(w.postOrder), Dests(w.table), multiset{source} + multiset(Destinations(tickets)));
    ReversedPermutes(w.postOrder);
  }

  lemma PartOfSum(a: multiset<Node>, b: multiset<Node>, c: multiset<Node>)
    requires a + b == c
    ensures a <= c
  {
    assert forall x :: a[x] <= (a + b)[x];
  }

  lemma {:induction false} ReversedPermutes<T>(s: seq<T>)
    ensures multiset(Reversed(s)) == multiset(s)
  {
    if s != [] {
      ReversedPermutes(s[..|s| - 1]);
      assert s == s[..|s| - 1] + [s[|s| - 1]];
    }
  }

  /** With no ticket leaving the source (an empty request, say) the answer is
      the source alone. */
  lemma ItineraryWithoutDepartures(tickets: seq<Ticket>, source: Node)
    requires forall i :: 0 <= i < |tickets| ==> tickets[i].origin != source
    ensures ItineraryOf(tickets, source) == [source]
  {
    assert source !in RouteMap(tickets);
    assert Walk(RouteMap(tickets), source).postOrder == [source];
    assert Reversed([source]) == [source] + Reversed([]);
  }

  /** The slice DFSearch filled, as the array reverseStrings works on. */
  method ToArray(s: seq<Node>) returns (a: array<Node>)
    ensures fresh(a) && a[..] == s
  {
    a := new Node[|s|](i requires 0 <= i < |s| => s[i]);
  }

  /** Without a trail through all tickets starting at the source, the answer
      need not be one: with tickets a->b and a->c, b sorting before c, the
      answer from a is a, c, b, although no ticket leads from c to b. */
  lemma ItineraryNeedNotBeTrail(a: Node, b: Node, c: Node)
    requires a != b && a != c && Less(b, c)
    ensures ItineraryOf([Ticket(a, b), Ticket(a, c)], a) == [a, c, b]
  {
    ForkRouteMap(a, b, c);
    ForkWalk(a, b, c);
    ReversedThree(b, c, a);
  }

  lemma ReversedThree(x: Node, y: Node, z: Node)
    ensures Reversed([x, y, z]) == [z, y, x]
  {
    var s := [x, y, z];
    ReversedIndex(s, 0);
    ReversedIndex(s, 1);
    ReversedIndex(s, 2);
  }

  lemma ForkRouteMap(a: Node, b: Node, c: Node)
    requires Less(b, c)
    ensures RouteMap([Ticket(a, b), Ticket(a, c)]) == map[a := [b, c]]
  {
    ForkAppended(a, b, c);
    SortAscending([b, c]);
    SortedListsMakeRouteMap([Ticket(a, b), Ticket(a, c)], map[a := [b, c]]);
  }

  lemma ForkAppended(a: Node, b: Node, c: Node)
    ensures Appended([Ticket(a, b), Ticket(a, c)]) == map[a := [b, c]]
  {
    assert [Ticket(a, b), Ticket(a, c)][..1] == [Ticket(a, b)];
    AppendedOne(Ticket(a, b));
    assert [b] + [c] == [b, c];
  }

  lemma AppendedOne(t: Ticket)
    ensures Appended([t]) == map[t.origin := [t.destination]]
  {
    assert [t][..0] == [];
    assert [] + [t.destination] == [t.destination];
  }

  lemma ForkWalk(a: Node, b: Node, c: Node)
    requires a != b && a != c
    ensures Walk(map[a := [b, c]], a).postOrder == [b, c, a]
  {
    var m: Table := map[a := [b, c]];
    var m1 := m[a := [c]];
    StepWalk(m1, a, c, [], [c], [a]);
    StepWalk(m, a, b, [c], [b], [c, a]);
  }

  /** Walk from `curr` when its list is `next` followed by `rest`, and the two
      legs are known. */
  lemma StepWalk(m: Table, curr: Node, next: Node, rest: seq<Node>, first: seq<Node>, second: seq<Node>)
    requires Out(m, curr) == [next] + rest
    requires Walk(m[curr := rest], next).postOrder == first
    requires Walk(Walk(m[curr := rest], next).table, curr).postOrder == second
    ensures Walk(m, curr).postOrder == first + second
  {
    WalkUnfold(m, curr);
    assert m[curr][1..] == rest;
  }

  /** findRoutes: build the route map, search from the source, reverse. */
  method FindRoutes(tickets: seq<Ticket>, source: Node) returns (itinerary: seq<Node>)
    ensures itinerary == ItineraryOf(tickets, source)
    ensures |itinerary| >= 1 && itinerary[0] == source
    ensures |itinerary| <= |tickets| + 1
  {
    var m := CreateRouteMap(tickets);
    var search := new RouteSearch(m);
    search.DFSearch(source);
    var buffer := ToArray(search.route);
    ReverseStrings(buffer);
    itinerary := buffer[..];
    ItineraryStartsAtSource(tickets, source);
    ItineraryLength(tickets, source);
  }
}
