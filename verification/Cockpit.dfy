/** The host grid of `app/ui/app.js`: cards that outlive polls, and the chart bookkeeping that must
    not outlive its cards. */
module Cockpit {
  import opened Wrappers
  import opened Collections

  type HostId = string

  type History = seq<real>

  datatype Readings = Readings(fixed: seq<History>, cores: seq<History>)

  /** One host of a payload. A host that cannot be reached has no readings to draw. */
  datatype Host = Host(id: HostId, readings: Option<Readings>)

  /** The payload carries a history for each of the five fixed charts. */
  predicate IsComplete(h: Host) {
    h.readings.Some? ==> |h.readings.value.fixed| == FIXED_CHARTS
  }

  /** CPU, memory, GPU, disk and network. */
  const FIXED_CHARTS := 5

  /** Elements are objects: what matters about them is which one is which. */
  class Plot {
    constructor () {}
  }

  class Card {
    const fixed: seq<Plot>

    /** A clone of the card template. */
    constructor ()
      ensures |fixed| == FIXED_CHARTS && Distinct(fixed) && forall p :: p in fixed ==> fresh(p)
    {
      var cpu := new Plot();
      var memory := new Plot();
      var gpu := new Plot();
      var disk := new Plot();
      var network := new Plot();
      fixed := [cpu, memory, gpu, disk, network];
    }
  }

  ghost function Elems(plots: seq<Plot>): set<Plot> {
    set p | p in plots
  }

  lemma ElemsSnoc(plots: seq<Plot>, k: nat)
    requires k < |plots|
    ensures Elems(plots[..k + 1]) == Elems(plots[..k]) + {plots[k]}
  {}

  // ------------------------------------------------------------------ the grid's children

  function Without<T(==)>(s: seq<T>, x: T): (r: seq<T>)
    ensures x !in r
    ensures forall y :: y in r ==> y in s
    ensures forall y :: y in s && y != x ==> y in r
    ensures Distinct(s) ==> Distinct(r)
  {
    if s == [] then []
    else
      assert Distinct(s) ==> Distinct(s[1..]) && s[0] !in s[1..];
      if s[0] == x then Without(s[1..], x) else [s[0]] + Without(s[1..], x)
  }

  function Index<T(==)>(s: seq<T>, x: T): (i: nat)
    requires x in s
    ensures i < |s| && s[i] == x
  {
    if s[0] == x then 0 else 1 + Index(s[1..], x)
  }

  /** `insertBefore(x, before)`: x leaves its place, if it has one, and stands before the reference
      child, or last. */
  function InsertBefore<T(==)>(s: seq<T>, x: T, before: Option<T>): seq<T>
    requires before.Some? ==> before.value in s && before.value != x
  {
    var rest := Without(s, x);
    if before.None? then rest + [x]
    else
      var i := Index(rest, before.value);
      rest[..i] + [x] + rest[i..]
  }

  lemma {:induction false} WithoutPrefix<T>(s: seq<T>, x: T, n: nat)
    requires n <= |s| && x !in s[..n]
    ensures n <= |Without(s, x)| && Without(s, x)[..n] == s[..n]
  {
    if n > 0 {
      assert s[0] in s[..n] && forall y :: y in s[1..][..n - 1] ==> y in s[..n];
      WithoutPrefix(s[1..], x, n - 1);
      assert s[..n] == [s[0]] + s[1..][..n - 1];
    }
  }

  lemma InsertAt<T>(rest: seq<T>, x: T, at: nat)
    requires Distinct(rest) && x !in rest && at <= |rest|
    ensures var r := rest[..at] + [x] + rest[at..];
      Distinct(r) && x in r && (forall y :: y in r ==> y in rest || y == x) && (forall y :: y in rest ==> y in r)
  {
    assert rest == rest[..at] + rest[at..];
  }

  lemma UniqueIndex<T>(s: seq<T>, i: nat)
    requires Distinct(s) && i < |s|
    ensures Index(s, s[i]) == i
  {}

  lemma Position<T>(s: seq<T>, x: T, i: nat)
    requires Distinct(s) && i <= |s| && x !in s[..i] && (i < |s| ==> s[i] != x)
    ensures var rest := Without(s, x);
      && i <= |rest| && rest[..i] == s[..i]
      && i == if i < |s| then Index(rest, s[i]) else |rest|
  {
    var rest := Without(s, x);
    WithoutPrefix(s, x, i);
    if i < |s| {
      assert s[..i + 1] == s[..i] + [s[i]];
      WithoutPrefix(s, x, i + 1);
      assert rest[i] == rest[..i + 1][i] == s[i];
      UniqueIndex(rest, i);
    } else {
      assert s[..i] == s;
      WithoutAbsent(s, x);
    }
  }

  function Moved<T(==)>(s: seq<T>, x: T, i: nat): seq<T>
    requires i < |s| ==> s[i] != x
  {
    InsertBefore(s, x, if i < |s| then Some(s[i]) else None)
  }

  lemma MoveSettles<T>(s: seq<T>, x: T, i: nat)
    requires Distinct(s) && i <= |s| && x !in s[..i] && (i < |s| ==> s[i] != x)
    ensures i < |Moved(s, x, i)| && Moved(s, x, i)[..i] == s[..i] && Moved(s, x, i)[i] == x
  {
    var rest := Without(s, x);
    Position(s, x, i);
    var r := rest[..i] + [x] + rest[i..];
    assert rest[..|rest|] + [x] + rest[|rest|..] == rest + [x];
    assert Moved(s, x, i) == r;
    assert r[..i] == rest[..i];
  }

  lemma MoveKeepsChildren<T>(s: seq<T>, x: T, i: nat)
    requires Distinct(s) && (i < |s| ==> s[i] != x)
    ensures var r := Moved(s, x, i);
      Distinct(r) && x in r && (forall y :: y in r ==> y in s || y == x) && (forall y :: y in s ==> y in r)
  {
    var rest := Without(s, x);
    var at := if i < |s| then Index(rest, s[i]) else |rest|;
    InsertAt(rest, x, at);
    assert rest[..|rest|] + [x] + rest[|rest|..] == rest + [x];
  }

  lemma {:induction false} WithoutAbsent<T>(s: seq<T>, x: T)
    requires x !in s
    ensures Without(s, x) == s
  {
    if s != [] {
      WithoutAbsent(s[1..], x);
    }
  }

  // ------------------------------------------------------------------ the page

  /** The tab bar of a payload, by host id. */
  datatype Tabs = NoTabs | Tabs(ids: seq<HostId>)

  /** The one host that stays visible, or None when all do: the selected tab, or the first one
      when the selected host is gone. */
  function Shown(tabs: Tabs, selected: Option<HostId>): Option<HostId> {
    match tabs
    case NoTabs => None
    case Tabs(ids) =>
      if selected.Some? && selected.value in ids then selected
      else if ids == [] then None else Some(ids[0])
  }

  function Ids(hosts: seq<Host>): set<HostId> {
    set h | h in hosts :: h.id
  }

  predicate DistinctIds(hosts: seq<Host>) {
    forall i, j :: 0 <= i < j < |hosts| ==> hosts[i].id != hosts[j].id
  }

  // ------------------------------------------------------------------ what a card shows

  /** The card plots exactly these readings. */
  ghost predicate Draws(c: Card, r: Readings, charts: map<Plot, History>, cores: Cells) {
    && c in cores && |r.fixed| == |c.fixed| && |r.cores| == |cores[c]|
    && (forall k :: 0 <= k < |c.fixed| ==> c.fixed[k] in charts && charts[c.fixed[k]] == r.fixed[k])
    && (forall k :: 0 <= k < |cores[c]| ==> cores[c][k] in charts && charts[cores[c][k]] == r.cores[k])
  }

  ghost predicate Shows(c: Card, h: Host, shown: Option<HostId>, hidden: set<Card>,
                        charts: map<Plot, History>, cores: Cells) {
    && (c in hidden <==> shown.Some? && shown.value != h.id)
    && (h.readings.Some? ==> Draws(c, h.readings.value, charts, cores))
  }

  ghost predicate Untouched(c: Card, hidden: set<Card>, charts: map<Plot, History>, cores: Cells,
                            hidden': set<Card>, charts': map<Plot, History>, cores': Cells) {
    && (c in hidden <==> c in hidden')
    && c in cores && c in cores' && cores'[c] == cores[c]
    && KeepsPlots(charts, charts', PlotsOf(c, cores))
  }

  /** A card that is not touched goes on showing what it showed. */
  lemma StillShows(c: Card, h: Host, shown: Option<HostId>, hidden: set<Card>, charts: map<Plot, History>, cores: Cells,
                   hidden': set<Card>, charts': map<Plot, History>, cores': Cells)
    requires Shows(c, h, shown, hidden, charts, cores)
    requires Untouched(c, hidden, charts, cores, hidden', charts', cores')
    ensures Shows(c, h, shown, hidden', charts', cores')
  {
    if h.readings.Some? {
      forall k | 0 <= k < |c.fixed| ensures c.fixed[k] in PlotsOf(c, cores) {}
      forall k | 0 <= k < |cores[c]| ensures cores[c][k] in PlotsOf(c, cores) {}
    }
  }

  // ------------------------------------------------------------------ whose plot is whose

  type Cells = map<Card, seq<Plot>>

  ghost function PlotsOf(c: Card, cores: Cells): set<Plot> {
    Elems(c.fixed) + if c in cores then Elems(cores[c]) else {}
  }

  ghost predicate IsOwned(c: Card, cores: Cells, owner: map<Plot, Card>) {
    forall p :: p in PlotsOf(c, cores) ==> p in owner && owner[p] == c
  }

  /** A card whose plots are told apart. */
  ghost predicate WellFormed(c: Card, cores: Cells) {
    && |c.fixed| == FIXED_CHARTS && Distinct(c.fixed)
    && c in cores && Distinct(cores[c]) && Elems(c.fixed) !! Elems(cores[c])
  }

  /** Every live card owns its plots, so no two share one, and every charted plot is in a live card. */
  ghost predicate Booked(live: set<Card>, cores: Cells, owner: map<Plot, Card>, charted: set<Plot>) {
    && (forall c :: c in live ==> WellFormed(c, cores) && IsOwned(c, cores, owner))
    && (forall p :: p in charted ==> p in owner && owner[p] in live && p in PlotsOf(owner[p], cores))
  }

  ghost function Claim(owner: map<Plot, Card>, plots: set<Plot>, c: Card): map<Plot, Card> {
    owner + map p | p in plots :: c
  }

  lemma OthersKeepTheirPlots(c: Card, card: Card, cells: seq<Plot>, cores: Cells, owner: map<Plot, Card>)
    requires c != card && IsOwned(c, cores, owner) && IsOwned(card, cores, owner)
    requires forall p :: p in cells && p !in PlotsOf(card, cores) ==> p !in owner
    ensures PlotsOf(c, cores[card := cells]) == PlotsOf(c, cores)
    ensures PlotsOf(c, cores) !! PlotsOf(card, cores) + PlotsOf(card, cores[card := cells])
    ensures IsOwned(c, cores[card := cells], Claim(owner, PlotsOf(card, cores[card := cells]), card))
  {
    assert PlotsOf(c, cores[card := cells]) == PlotsOf(c, cores);
    forall p | p in PlotsOf(c, cores) ensures p !in PlotsOf(card, cores) && p !in cells {}
  }

  /** Redrawing a card, with cells it had or new ones, keeps the books. */
  lemma RedrawKeepsBooks(live: set<Card>, card: Card, cells: seq<Plot>, cores: Cells, owner: map<Plot, Card>,
                         charted: set<Plot>)
    requires Booked(live, cores, owner, charted) && card in live && WellFormed(card, cores[card := cells])
    requires forall p :: p in cells && p !in PlotsOf(card, cores) ==> p !in owner
    ensures var cores' := cores[card := cells];
      Booked(live, cores', Claim(owner, PlotsOf(card, cores'), card),
             charted - PlotsOf(card, cores) + PlotsOf(card, cores'))
  {
    var cores' := cores[card := cells];
    var owner' := Claim(owner, PlotsOf(card, cores'), card);
    forall c | c in live ensures WellFormed(c, cores') && IsOwned(c, cores', owner') {
      if c != card {
        OthersKeepTheirPlots(c, card, cells, cores, owner);
      }
    }
    forall p | p in charted - PlotsOf(card, cores) + PlotsOf(card, cores')
      ensures p in owner' && owner'[p] in live && p in PlotsOf(owner'[p], cores')
    {
      if p !in PlotsOf(card, cores') {
        var c := owner[p];
        assert c != card;
        OthersKeepTheirPlots(c, card, cells, cores, owner);
      }
    }
  }

  /** The grid's children are the known cards, each once, and no two hosts share one. */
  ghost predicate GridShows(grid: seq<Card>, cards: map<HostId, Card>) {
    && Distinct(grid)
    && (forall c :: c in grid ==> c in cards.Values)
    && (forall c :: c in cards.Values ==> c in grid)
    && OneCardEach(cards)
  }

  lemma PlacedGridShows(grid: seq<Card>, cards: map<HostId, Card>, id: HostId, card: Card, grid': seq<Card>)
    requires GridShows(grid, cards)
    requires if id in cards then cards[id] == card else card !in cards.Values
    requires Distinct(grid') && card in grid'
    requires (forall c :: c in grid' ==> c in grid || c == card) && (forall c :: c in grid ==> c in grid')
    ensures GridShows(grid', cards[id := card])
    ensures forall a :: a in cards && a != id ==> cards[a] != card
  {
    var m := cards[id := card];
    if id in cards {
      assert m == cards;
    } else {
      AddedValue(cards, id, card);
      forall a | a in cards ensures cards[a] in cards.Values {}
    }
  }

  lemma LiveCardsHaveCells(cards: map<HostId, Card>, cores: Cells, owner: map<Plot, Card>, charted: set<Plot>)
    requires Booked(cards.Values, cores, owner, charted)
    ensures forall a :: a in cards ==> cards[a] in cores
  {
    forall a | a in cards ensures cards[a] in cores {
      assert cards[a] in cards.Values && WellFormed(cards[a], cores);
    }
  }

  lemma RemovedValue(cards: map<HostId, Card>, id: HostId)
    requires id in cards && OneCardEach(cards)
    ensures (cards - {id}).Values == cards.Values - {cards[id]}
  {
    var rest := cards - {id};
    forall c | c in cards.Values - {cards[id]} ensures c in rest.Values {
      var a :| a in cards && cards[a] == c;
      assert a in rest && rest[a] == c;
    }
    forall c | c in rest.Values ensures c in cards.Values - {cards[id]} {
      var a :| a in rest && rest[a] == c;
      assert a in cards && a != id;
    }
  }

  lemma RemovedGridShows(grid: seq<Card>, cards: map<HostId, Card>, id: HostId)
    requires GridShows(grid, cards) && id in cards
    ensures GridShows(Without(grid, cards[id]), cards - {id})
  {
    RemovedValue(cards, id);
  }

  lemma ElemsOfConcat(a: seq<Plot>, b: seq<Plot>)
    ensures Elems(a + b) == Elems(a) + Elems(b)
  {}

  lemma AddKeepsBooks(live: set<Card>, card: Card, cores: Cells, owner: map<Plot, Card>, charted: set<Plot>)
    requires Booked(live, cores, owner, charted) && card !in live
    requires |card.fixed| == FIXED_CHARTS && Distinct(card.fixed) && forall p :: p in card.fixed ==> p !in owner
    ensures var cores' := cores[card := []];
      Booked(live + {card}, cores', Claim(owner, PlotsOf(card, cores'), card), charted)
  {
    var cores' := cores[card := []];
    forall c | c in live ensures PlotsOf(c, cores') == PlotsOf(c, cores) {}
  }

  lemma RemoveKeepsBooks(live: set<Card>, card: Card, cores: Cells, owner: map<Plot, Card>, charted: set<Plot>)
    requires Booked(live, cores, owner, charted) && card in live
    ensures Booked(live - {card}, cores, owner, charted - PlotsOf(card, cores))
  {}

  lemma AddedValue<K, V>(m: map<K, V>, k: K, v: V)
    requires k !in m
    ensures m[k := v].Values == m.Values + {v}
  {
    var m' := m[k := v];
    assert k in m' && m'[k] == v;
    forall x | x in m.Values ensures x in m'.Values {
      var j :| j in m && m[j] == x;
      assert j in m' && m'[j] == x;
    }
  }

  /** The module-level state, with the attributes it sets on each card: the core cells, the
      count they were built for (`data-n`), and whether the card is hidden. */
  class Page {
    var grid: seq<Card>
    var cards: map<HostId, Card>
    var charts: map<Plot, History>
    var observed: set<Plot>
    var selected: Option<HostId>
    var cores: map<Card, seq<Plot>>
    var coreCount: map<Card, nat>
    var hidden: set<Card>
    ghost var owner: map<Plot, Card>

    /** The grid shows the known cards and nothing else, no two hosts share a card nor two cards a
        plot, and the bookkeeping holds plots of live cards only. */
    ghost predicate Valid()
      reads this`grid, this`cards, this`charts, this`observed, this`cores, this`coreCount, this`owner
    {
      && GridShows(grid, cards)
      && Booked(cards.Values, cores, owner, charts.Keys)
      && charts.Keys == observed
      && coreCount.Keys <= cores.Keys
      && (forall c :: c in cores ==> |cores[c]| == if c in coreCount then coreCount[c] else 0)
    }

    constructor ()
      ensures Valid() && cards == map[] && selected == None
    {
      grid, cards, charts, observed, selected := [], map[], map[], {}, None;
      cores, coreCount, hidden, owner := map[], map[], {}, map[];
    }

    method Spark(plot: Plot, history: History)
      modifies this`charts, this`observed
      ensures charts == old(charts)[plot := history] && observed == old(observed) + {plot}
    {
      charts := charts[plot := history];
      observed := observed + {plot};
    }

    /** Drops the given plots from the bookkeeping. */
    method ForgetCharts(plots: seq<Plot>)
      modifies this`charts, this`observed
      ensures charts == old(charts) - Elems(plots) && observed == old(observed) - Elems(plots)
    {
      for k := 0 to |plots|
        invariant charts == old(charts) - Elems(plots[..k]) && observed == old(observed) - Elems(plots[..k])
      {
        charts := charts - {plots[k]};
        observed := observed - {plots[k]};
        ElemsSnoc(plots, k);
      }
      assert plots[..|plots|] == plots;
    }

    /** Redraws a row of plots. */
    method SparkAll(plots: seq<Plot>, histories: seq<History>)
      requires |plots| <= |histories| && Distinct(plots)
      modifies this`charts, this`observed
      ensures charts.Keys == old(charts).Keys + Elems(plots) && observed == old(observed) + Elems(plots)
      ensures forall p :: p in old(charts) && p !in plots ==> charts[p] == old(charts)[p]
      ensures forall k :: 0 <= k < |plots| ==> charts[plots[k]] == histories[k]
    {
      for k := 0 to |plots|
        invariant charts.Keys == old(charts).Keys + Elems(plots[..k]) && observed == old(observed) + Elems(plots[..k])
        invariant forall p :: p in old(charts) && p !in plots[..k] ==> charts[p] == old(charts)[p]
        invariant forall i :: 0 <= i < k ==> charts[plots[i]] == histories[i]
      {
        Spark(plots[k], histories[k]);
        ElemsSnoc(plots, k);
      }
      assert plots[..|plots|] == plots;
    }

    /** Replaces the core cells when the core count differs from the one they were built for. */
    method RebuildCores(card: Card, n: nat)
      requires WellFormed(card, cores)
      requires |cores[card]| == if card in coreCount then coreCount[card] else 0
      modifies this`charts, this`observed, this`cores, this`coreCount
      ensures WellFormed(card, cores) && |cores[card]| == n
      ensures cores == old(cores)[card := cores[card]] && coreCount == old(coreCount)[card := n]
      ensures forall p :: p in cores[card] && p !in old(cores[card]) ==> fresh(p)
      ensures card in old(coreCount) && old(coreCount)[card] == n ==> cores == old(cores)
      ensures charts == old(charts) - (old(Elems(cores[card])) - Elems(cores[card]))
      ensures observed == old(observed) - (old(Elems(cores[card])) - Elems(cores[card]))
    {
      if card in coreCount && coreCount[card] == n {
        return;
      }
      ForgetCharts(cores[card]);
      var cells: seq<Plot> := [];
      while |cells| < n
        invariant |cells| <= n && Distinct(cells)
        invariant forall p :: p in cells ==> fresh(p) && p !in card.fixed && p !in old(cores[card])
        modifies {}
      {
        var cell := new Plot();
        cells := cells + [cell];
      }
      cores, coreCount := cores[card := cells], coreCount[card := n];
      assert old(Elems(cores[card])) - Elems(cells) == old(Elems(cores[card]));
    }

    /** What a drawn card plots is its own host's readings. The order in which the plots of one card
        are redrawn does not show. */
    method Render(card: Card, r: Readings)
      requires WellFormed(card, cores) && |r.fixed| == FIXED_CHARTS
      requires |cores[card]| == if card in coreCount then coreCount[card] else 0
      modifies this`charts, this`observed, this`cores, this`coreCount
      ensures WellFormed(card, cores) && Draws(card, r, charts, cores)
      ensures cores == old(cores)[card := cores[card]] && coreCount == old(coreCount)[card := |r.cores|]
      ensures forall p :: p in cores[card] && p !in old(cores[card]) ==> fresh(p)
      ensures charts.Keys == old(charts).Keys - old(PlotsOf(card, cores)) + PlotsOf(card, cores)
      ensures observed == old(observed) - old(PlotsOf(card, cores)) + PlotsOf(card, cores)
      ensures forall p :: p in old(charts) && p !in old(PlotsOf(card, cores)) && p !in PlotsOf(card, cores) ==>
                charts[p] == old(charts)[p]
    {
      RebuildCores(card, |r.cores|);
      RedrawPlots(card.fixed, cores[card], r);
    }

    method RedrawPlots(fixed: seq<Plot>, cells: seq<Plot>, r: Readings)
      requires |fixed| == |r.fixed| && |cells| == |r.cores|
      requires Distinct(fixed) && Distinct(cells) && Elems(fixed) !! Elems(cells)
      modifies this`charts, this`observed
      ensures charts.Keys == old(charts).Keys + Elems(fixed) + Elems(cells)
      ensures observed == old(observed) + Elems(fixed) + Elems(cells)
      ensures forall p :: p in old(charts) && p !in fixed && p !in cells ==> charts[p] == old(charts)[p]
      ensures forall k :: 0 <= k < |fixed| ==> charts[fixed[k]] == r.fixed[k]
      ensures forall k :: 0 <= k < |cells| ==> charts[cells[k]] == r.cores[k]
    {
      SparkAll(cells, r.cores);
      SparkAll(fixed, r.fixed);
      forall k | 0 <= k < |cells| ensures charts[cells[k]] == r.cores[k] {
        assert cells[k] in Elems(cells);
      }
    }

    /** Draws one known card. A host without readings leaves its plots as they were. */
    method DrawCard(card: Card, h: Host)
      requires Valid() && card in cards.Values && IsComplete(h)
      modifies this`charts, this`observed, this`cores, this`coreCount, this`owner
      ensures Valid()
      ensures h.readings.Some? ==> Draws(card, h.readings.value, charts, cores)
      ensures ForOthers(cards.Values, card, hidden, old(charts), old(cores), charts, cores)
    {
      assert card in cores;
      if h.readings.None? {
        return;
      }
      Render(card, h.readings.value);
      RedrawKeepsBooks(cards.Values, card, cores[card], old(cores), owner, old(charts.Keys));
      forall c | c in cards.Values && c != card ensures KeepsPlots(old(charts), charts, PlotsOf(c, old(cores))) {
        OthersKeepTheirPlots(c, card, cores[card], old(cores), owner);
      }
      owner := Claim(owner, PlotsOf(card, cores), card);
    }

    /** The host's card, made on first sight and not yet in the grid. */
    method CardFor(id: HostId) returns (card: Card)
      requires Valid()
      modifies this`cards, this`cores, this`owner
      ensures cards == old(cards)[id := card] && (if id in old(cards) then card == old(cards)[id] else fresh(card))
      ensures cores == if id in old(cards) then old(cores) else old(cores)[card := []]
      ensures card !in coreCount || id in old(cards)
      ensures Booked(cards.Values, cores, owner, charts.Keys)
      ensures cards.Values == old(cards).Values + {card} && (id in old(cards) || card !in old(cards).Values)
    {
      if id in cards {
        card := cards[id];
        assert cards[id := card] == cards;
        return;
      }
      card := new Card();
      AddKeepsBooks(cards.Values, card, cores, owner, charts.Keys);
      AddedValue(cards, id, card);
      cards, cores := cards[id := card], cores[card := []];
      owner := Claim(owner, PlotsOf(card, cores), card);
    }

    /** The grid takes a card at place i, where it may already be. */
    method Place(card: Card, i: nat)
      requires Distinct(grid)
      modifies this`grid
      ensures Distinct(grid) && card in grid
      ensures forall c :: c in grid ==> c in old(grid) || c == card
      ensures forall c :: c in old(grid) ==> c in grid
      ensures i <= |old(grid)| && card !in old(grid)[..i] ==>
                i < |grid| && grid[..i] == old(grid)[..i] && grid[i] == card
    {
      if !(i < |grid| && grid[i] == card) {
        MoveKeepsChildren(grid, card, i);
        if i <= |grid| && card !in grid[..i] {
          MoveSettles(grid, card, i);
        }
        grid := Moved(grid, card, i);
      }
    }

    /** The host's card, in the grid at place i. */
    method PlaceCardFor(id: HostId, i: nat) returns (card: Card)
      requires Valid()
      modifies this`grid, this`cards, this`cores, this`owner
      ensures Valid() && card in cards.Values
      ensures forall a :: a in old(cards) && a != id ==> old(cards)[a] != card && old(cards)[a] in old(cores)
      ensures cards == old(cards)[id := card] && (if id in old(cards) then card == old(cards)[id] else fresh(card))
      ensures cores == if id in old(cards) then old(cores) else old(cores)[card := []]
      ensures Settles(old(grid), grid, i, card, id in old(cards))
    {
      LiveCardsHaveCells(cards, cores, owner, charts.Keys);
      card := CardFor(id);
      Place(card, i);
      PlacedGridShows(old(grid), old(cards), id, card, grid);
    }

    method Conceal(card: Card, concealed: bool)
      modifies this`hidden
      ensures hidden == if concealed then old(hidden) + {card} else old(hidden) - {card}
    {
      hidden := if concealed then hidden + {card} else hidden - {card};
    }

    /** One host of the payload, the i-th. */
    method ShowHost(h: Host, i: nat, shown: Option<HostId>)
      requires Valid() && IsComplete(h)
      modifies this`grid, this`cards, this`charts, this`observed, this`cores, this`coreCount, this`owner, this`hidden
      ensures Valid() && h.id in cards && Shows(cards[h.id], h, shown, hidden, charts, cores)
      ensures cards == old(cards)[h.id := cards[h.id]]
      ensures if h.id in old(cards) then cards[h.id] == old(cards)[h.id] else fresh(cards[h.id])
      ensures Settles(old(grid), grid, i, cards[h.id], h.id in old(cards))
      ensures OnlyTouches(h.id, old(cards), old(hidden), old(charts), old(cores), hidden, charts, cores)
    {
      var card := PlaceCardFor(h.id, i);
      Conceal(card, shown.Some? && shown.value != h.id);
      ghost var hidden', cores' := hidden, cores;
      DrawCard(card, h);
      OthersUntouched(old(cards), h.id, card, old(hidden), old(charts), old(cores), hidden', cores', charts, cores);
    }

    /** Takes one card off the page, with its chart bookkeeping. */
    method RemoveCard(id: HostId)
      requires Valid() && id in cards
      modifies this`grid, this`cards, this`charts, this`observed
      ensures Valid() && cards == old(cards) - {id}
    {
      var card := cards[id];
      LiveCardsHaveCells(cards, cores, owner, charts.Keys);
      ElemsOfConcat(card.fixed, cores[card]);
      RemoveKeepsBooks(cards.Values, card, cores, owner, charts.Keys);
      RemovedValue(cards, id);
      RemovedGridShows(grid, cards, id);
      ForgetCharts(card.fixed + cores[card]);
      grid := Without(grid, card);
      cards := cards - {id};
    }

    /** The tab bar: which host is selected, and the one card that stays visible. */
    method ApplyHostTabs(tabs: Tabs) returns (shown: Option<HostId>)
      modifies this`selected
      ensures shown == Shown(tabs, old(selected))
      ensures tabs.NoTabs? ==> shown == None && selected == old(selected)
      ensures tabs.Tabs? ==> selected == shown
      ensures tabs.Tabs? && old(selected).Some? && old(selected).value in tabs.ids ==> selected == old(selected)
      ensures tabs.Tabs? && (old(selected).None? || old(selected).value !in tabs.ids) ==>
                selected == if tabs.ids == [] then None else Some(tabs.ids[0])
    {
      if tabs.NoTabs? {
        return None;
      }
      if selected.None? || selected.value !in tabs.ids {
        selected := if tabs.ids == [] then None else Some(tabs.ids[0]);
      }
      shown := selected;
    }

    /** Cards of hosts that have left the payload leave the page. */
    method RemoveGone(hosts: seq<Host>)
      requires Valid()
      modifies this`grid, this`cards, this`charts, this`observed
      ensures Valid() && cards == old(cards) - (old(cards).Keys - Ids(hosts))
    {
      var gone := cards.Keys - Ids(hosts);
      while gone != {}
        invariant Valid() && gone <= old(cards).Keys - Ids(hosts)
        invariant cards == old(cards) - (old(cards).Keys - Ids(hosts) - gone)
        decreases gone
      {
        var id :| id in gone;
        RemoveCard(id);
        gone := gone - {id};
      }
    }

    method ShowNext(hosts: seq<Host>, k: nat, shown: Option<HostId>)
      requires Valid() && k < |hosts| && IsComplete(hosts[k])
      requires ShowsInOrder(grid, cards, hosts, k, shown, hidden, charts, cores)
      requires HidesAllBut(cards, hosts, k, shown, hidden)
      modifies this`grid, this`cards, this`charts, this`observed, this`cores, this`coreCount, this`owner, this`hidden
      ensures HidesAllBut(cards, hosts, k + 1, shown, hidden)
      ensures Valid() && hosts[k].id in cards && cards == old(cards)[hosts[k].id := cards[hosts[k].id]]
      ensures hosts[k].id in old(cards) ==> cards == old(cards)
      ensures ShowsInOrder(grid, cards, hosts, k + 1, shown, hidden, charts, cores)
    {
      ghost var grid0, cards0, hidden0, charts0, cores0 := grid, cards, hidden, charts, cores;
      ShowHost(hosts[k], k, shown);
      NextHost(grid0, cards0, hosts, k, shown, hidden0, charts0, cores0, grid, cards, hidden, charts, cores);
      NextHidden(cards0, hosts, k, shown, hidden0, charts0, cores0, cards, hidden, charts, cores);
    }

    method ShowHosts(hosts: seq<Host>, shown: Option<HostId>)
      requires Valid() && forall h :: h in hosts ==> IsComplete(h)
      modifies this`grid, this`cards, this`charts, this`observed, this`cores, this`coreCount, this`owner, this`hidden
      ensures Valid()
      ensures cards.Keys == old(cards).Keys + Ids(hosts)
      ensures forall id :: id in old(cards) ==> cards[id] == old(cards)[id]
      ensures ShowsInOrder(grid, cards, hosts, |hosts|, shown, hidden, charts, cores)
      ensures HidesAllBut(cards, hosts, |hosts|, shown, hidden)
    {
      for k := 0 to |hosts|
        invariant Valid()
        invariant Knows(old(cards), cards, hosts, k)
        invariant ShowsInOrder(grid, cards, hosts, k, shown, hidden, charts, cores)
        invariant HidesAllBut(cards, hosts, k, shown, hidden)
      {
        ghost var before := cards;
        assert hosts[k] in hosts;
        ShowNext(hosts, k, shown);
        KnowsOneMore(old(cards), before, cards, hosts, k);
      }
      assert hosts[..|hosts|] == hosts;
    }

    /** A payload painted. Whatever the page showed before, it now shows exactly the payload's
        hosts: surviving hosts on the cards they had, in the payload's order exactly when no host
        is named twice, each card plotting its own host's readings. Without tabs every card is visible
        and the selection waits; with tabs a selection among them stays, any other becomes the first
        tab, and the selected host's card is the visible one. */
    method RenderCockpit(hosts: seq<Host>, tabs: Tabs)
      requires Valid() && forall h :: h in hosts ==> IsComplete(h)
      modifies this
      ensures Valid()
      ensures cards.Keys == Ids(hosts)
      ensures forall id :: id in old(cards) && id in cards ==> cards[id] == old(cards)[id]
      ensures DistinctIds(hosts) <==> |grid| == |hosts| && InOrder(grid, cards, hosts, |hosts|)
      ensures tabs.NoTabs? ==> selected == old(selected) && forall h :: h in hosts ==> cards[h.id] !in hidden
      ensures tabs.Tabs? && old(selected).Some? && old(selected).value in tabs.ids ==> selected == old(selected)
      ensures tabs.Tabs? && (old(selected).None? || old(selected).value !in tabs.ids) ==>
                selected == if tabs.ids == [] then None else Some(tabs.ids[0])
      ensures tabs.Tabs? && selected.Some? ==>
                forall h :: h in hosts ==> (cards[h.id] !in hidden <==> h.id == selected.value)
      ensures DistinctIds(hosts) ==>
                AllShow(cards, hosts, |hosts|, Shown(tabs, old(selected)), hidden, charts, cores)
      ensures DistinctIds(hosts) && AreTabsOf(tabs, hosts) ==>
                ShowsOneCard(cards, hosts, tabs, Shown(tabs, old(selected)), hidden)
    {
      RemoveGone(hosts);
      var shown := ApplyHostTabs(tabs);
      ShowHosts(hosts, shown);
      OrderIsExact(grid, cards, hosts);
      if DistinctIds(hosts) && AreTabsOf(tabs, hosts) {
        OneCardIsVisible(cards, hosts, tabs, old(selected), hidden, charts, cores);
      }
    }

    /** A click on a tab, up to the repaint that it asks for. */
    method Click(id: HostId)
      modifies this`selected
      ensures selected == Some(id)
    {
      selected := Some(id);
    }
  }

  ghost predicate InOrder(grid: seq<Card>, cards: map<HostId, Card>, hosts: seq<Host>, k: nat)
    requires k <= |hosts|
  {
    k <= |grid| && forall j :: 0 <= j < k ==> hosts[j].id in cards && grid[j] == cards[hosts[j].id]
  }

  ghost predicate AllShow(cards: map<HostId, Card>, hosts: seq<Host>, k: nat, shown: Option<HostId>,
                          hidden: set<Card>, charts: map<Plot, History>, cores: Cells)
    requires k <= |hosts|
  {
    forall j :: 0 <= j < k ==>
      hosts[j].id in cards && Shows(cards[hosts[j].id], hosts[j], shown, hidden, charts, cores)
  }

  /** The first k hosts of a payload without repetition stand in order and show their readings. */
  ghost predicate ShowsInOrder(grid: seq<Card>, cards: map<HostId, Card>, hosts: seq<Host>, k: nat,
                               shown: Option<HostId>, hidden: set<Card>, charts: map<Plot, History>, cores: Cells)
    requires k <= |hosts|
  {
    DistinctIds(hosts) ==> InOrder(grid, cards, hosts, k) && AllShow(cards, hosts, k, shown, hidden, charts, cores)
  }

  /** The card stands at place i behind what stood there, unless an earlier place already had it. */
  ghost predicate Settles(grid: seq<Card>, grid': seq<Card>, i: nat, card: Card, wasKnown: bool) {
    i <= |grid| && (wasKnown ==> card !in grid[..i]) ==>
      i < |grid'| && grid'[..i] == grid[..i] && grid'[i] == card
  }

  ghost predicate OnlyTouches(id: HostId, cards: map<HostId, Card>, hidden: set<Card>, charts: map<Plot, History>,
                              cores: Cells, hidden': set<Card>, charts': map<Plot, History>, cores': Cells) {
    forall a :: a in cards && a != id ==> Untouched(cards[a], hidden, charts, cores, hidden', charts', cores')
  }

  ghost predicate OneCardEach(cards: map<HostId, Card>) {
    forall a, b :: a in cards && b in cards && a != b ==> cards[a] != cards[b]
  }

  /** The known cards, and cards for the first k hosts. */
  ghost predicate Knows(cards: map<HostId, Card>, cards': map<HostId, Card>, hosts: seq<Host>, k: nat)
    requires k <= |hosts|
  {
    cards'.Keys == cards.Keys + Ids(hosts[..k]) && forall id :: id in cards ==> cards'[id] == cards[id]
  }

  lemma KnowsOneMore(cards: map<HostId, Card>, cards': map<HostId, Card>, cards'': map<HostId, Card>,
                     hosts: seq<Host>, k: nat)
    requires k < |hosts| && Knows(cards, cards', hosts, k)
    requires hosts[k].id in cards'' && cards'' == cards'[hosts[k].id := cards''[hosts[k].id]]
    requires hosts[k].id in cards' ==> cards'' == cards'
    ensures Knows(cards, cards'', hosts, k + 1)
  {
    IdsSnoc(hosts, k);
  }

  lemma NextHost(grid: seq<Card>, cards: map<HostId, Card>, hosts: seq<Host>, k: nat, shown: Option<HostId>,
                 hidden: set<Card>, charts: map<Plot, History>, cores: Cells, grid': seq<Card>,
                 cards': map<HostId, Card>, hidden': set<Card>, charts': map<Plot, History>, cores': Cells)
    requires k < |hosts| && ShowsInOrder(grid, cards, hosts, k, shown, hidden, charts, cores)
    requires hosts[k].id in cards' && cards' == cards[hosts[k].id := cards'[hosts[k].id]] && OneCardEach(cards')
    requires Settles(grid, grid', k, cards'[hosts[k].id], hosts[k].id in cards)
    requires Shows(cards'[hosts[k].id], hosts[k], shown, hidden', charts', cores')
    requires OnlyTouches(hosts[k].id, cards, hidden, charts, cores, hidden', charts', cores')
    ensures ShowsInOrder(grid', cards', hosts, k + 1, shown, hidden', charts', cores')
  {
    if DistinctIds(hosts) {
      NextInOrder(grid, cards, hosts, k, grid', cards');
      NextShows(cards, hosts, k, shown, hidden, charts, cores, cards', hidden', charts', cores');
    }
  }

  /** Of the first k hosts exactly the shown one's card is visible, or all are. */
  ghost predicate HidesAllBut(cards: map<HostId, Card>, hosts: seq<Host>, k: nat, shown: Option<HostId>,
                              hidden: set<Card>)
    requires k <= |hosts|
  {
    forall j :: 0 <= j < k ==>
      hosts[j].id in cards && (cards[hosts[j].id] in hidden <==> shown.Some? && shown.value != hosts[j].id)
  }

  lemma NextHidden(cards: map<HostId, Card>, hosts: seq<Host>, k: nat, shown: Option<HostId>,
                   hidden: set<Card>, charts: map<Plot, History>, cores: Cells, cards': map<HostId, Card>,
                   hidden': set<Card>, charts': map<Plot, History>, cores': Cells)
    requires k < |hosts| && HidesAllBut(cards, hosts, k, shown, hidden)
    requires hosts[k].id in cards' && cards' == cards[hosts[k].id := cards'[hosts[k].id]]
    requires Shows(cards'[hosts[k].id], hosts[k], shown, hidden', charts', cores')
    requires OnlyTouches(hosts[k].id, cards, hidden, charts, cores, hidden', charts', cores')
    ensures HidesAllBut(cards', hosts, k + 1, shown, hidden')
  {
    forall j | 0 <= j < k && hosts[j].id != hosts[k].id
      ensures cards'[hosts[j].id] in hidden' <==> shown.Some? && shown.value != hosts[j].id
    {
      assert Untouched(cards[hosts[j].id], hidden, charts, cores, hidden', charts', cores');
    }
  }

  /** A payload of the poll. */
  datatype Payload = Payload(hosts: seq<Host>, tabs: Tabs)

  /** A tab once chosen stays chosen, and its card visible, over any number of payloads whose tabs hold
      it, whatever else they bring. */
  method ChooseAndPoll(page: Page, id: HostId, payloads: seq<Payload>)
    requires page.Valid() && forall p :: p in payloads ==> forall h :: h in p.hosts ==> IsComplete(h)
    requires forall p :: p in payloads ==> p.tabs.Tabs? && id in p.tabs.ids
    modifies page
    ensures page.Valid() && page.selected == Some(id)
    ensures payloads != [] ==>
              var hosts := payloads[|payloads| - 1].hosts;
              page.cards.Keys == Ids(hosts)
              && forall h :: h in hosts ==> (page.cards[h.id] !in page.hidden <==> h.id == id)
  {
    page.Click(id);
    for k := 0 to |payloads|
      invariant page.Valid() && page.selected == Some(id)
      invariant k > 0 ==>
                  var hosts := payloads[k - 1].hosts;
                  page.cards.Keys == Ids(hosts)
                  && forall h :: h in hosts ==> (page.cards[h.id] !in page.hidden <==> h.id == id)
    {
      assert payloads[k] in payloads;
      page.RenderCockpit(payloads[k].hosts, payloads[k].tabs);
    }
  }

  lemma IdsSnoc(hosts: seq<Host>, k: nat)
    requires k < |hosts|
    ensures Ids(hosts[..k + 1]) == Ids(hosts[..k]) + {hosts[k].id}
    ensures hosts[k] in hosts
  {
    assert hosts[..k + 1] == hosts[..k] + [hosts[k]];
  }

  lemma NextInOrder(grid: seq<Card>, cards: map<HostId, Card>, hosts: seq<Host>, k: nat,
                    grid': seq<Card>, cards': map<HostId, Card>)
    requires k < |hosts| && DistinctIds(hosts) && InOrder(grid, cards, hosts, k)
    requires hosts[k].id in cards' && cards' == cards[hosts[k].id := cards'[hosts[k].id]]
    requires OneCardEach(cards') && Settles(grid, grid', k, cards'[hosts[k].id], hosts[k].id in cards)
    ensures InOrder(grid', cards', hosts, k + 1)
  {
    forall j | 0 <= j < k ensures grid[j] == cards'[hosts[j].id] != cards'[hosts[k].id] {
      assert hosts[j].id != hosts[k].id;
    }
    assert hosts[k].id in cards ==> cards'[hosts[k].id] !in grid[..k];
    forall j | 0 <= j < k ensures grid'[j] == grid[j] {
      assert grid'[j] == grid'[..k][j];
    }
  }

  lemma NextShows(cards: map<HostId, Card>, hosts: seq<Host>, k: nat, shown: Option<HostId>,
                  hidden: set<Card>, charts: map<Plot, History>, cores: Cells, cards': map<HostId, Card>,
                  hidden': set<Card>, charts': map<Plot, History>, cores': Cells)
    requires k < |hosts| && DistinctIds(hosts) && AllShow(cards, hosts, k, shown, hidden, charts, cores)
    requires hosts[k].id in cards' && cards' == cards[hosts[k].id := cards'[hosts[k].id]]
    requires Shows(cards'[hosts[k].id], hosts[k], shown, hidden', charts', cores')
    requires OnlyTouches(hosts[k].id, cards, hidden, charts, cores, hidden', charts', cores')
    ensures AllShow(cards', hosts, k + 1, shown, hidden', charts', cores')
  {
    forall j | 0 <= j < k ensures Shows(cards'[hosts[j].id], hosts[j], shown, hidden', charts', cores') {
      assert hosts[j].id != hosts[k].id;
      StillShows(cards[hosts[j].id], hosts[j], shown, hidden, charts, cores, hidden', charts', cores');
    }
  }

  lemma NoCardBeyond(grid: seq<Card>, cards: map<HostId, Card>, hosts: seq<Host>, i: nat)
    requires GridShows(grid, cards) && cards.Keys == Ids(hosts) && InOrder(grid, cards, hosts, |hosts|)
    requires i < |grid|
    ensures i < |hosts|
  {
    assert grid[i] in grid && grid[i] in cards.Values;
    var id :| id in cards && cards[id] == grid[i];
    assert id in Ids(hosts);
    var j :| 0 <= j < |hosts| && hosts[j].id == id;
    assert i == j;
  }

  /** A grid without repetition shows the payload in order exactly when the payload has none. */
  lemma OrderIsExact(grid: seq<Card>, cards: map<HostId, Card>, hosts: seq<Host>)
    requires GridShows(grid, cards) && cards.Keys == Ids(hosts)
    requires DistinctIds(hosts) ==> InOrder(grid, cards, hosts, |hosts|)
    ensures DistinctIds(hosts) <==> |grid| == |hosts| && InOrder(grid, cards, hosts, |hosts|)
  {
    if DistinctIds(hosts) && grid != [] {
      NoCardBeyond(grid, cards, hosts, |grid| - 1);
    }
    if |grid| == |hosts| && InOrder(grid, cards, hosts, |hosts|) {
      forall i, j | 0 <= i < j < |hosts| ensures hosts[i].id != hosts[j].id {
        assert grid[i] != grid[j];
      }
    }
  }

  // ------------------------------------------------------------------ what follows

  function PlotCount(cards: seq<Card>, cores: Cells): nat {
    if cards == [] then 0
    else |cards[0].fixed| + (if cards[0] in cores then |cores[cards[0]]| else 0) + PlotCount(cards[1..], cores)
  }

  lemma {:induction false} ElemsAreFew(plots: seq<Plot>)
    ensures |Elems(plots)| <= |plots|
  {
    if plots != [] {
      ElemsAreFew(plots[1..]);
      assert plots == [plots[0]] + plots[1..];
      assert Elems(plots) == {plots[0]} + Elems(plots[1..]);
    }
  }

  lemma {:induction false} PlotsAreCounted(cards: seq<Card>, cores: Cells, plots: set<Plot>)
    requires forall p :: p in plots ==> exists c :: c in cards && p in PlotsOf(c, cores)
    ensures |plots| <= PlotCount(cards, cores)
  {
    if cards == [] {
      assert plots == {};
    } else {
      var first := PlotsOf(cards[0], cores);
      forall p | p in plots - first ensures exists c :: c in cards[1..] && p in PlotsOf(c, cores) {
        var c :| c in cards && p in PlotsOf(c, cores);
        assert c != cards[0];
      }
      PlotsAreCounted(cards[1..], cores, plots - first);
      ElemsAreFew(cards[0].fixed);
      var cells := if cards[0] in cores then cores[cards[0]] else [];
      ElemsAreFew(cells);
      assert first == Elems(cards[0].fixed) + Elems(cells);
      SubsetIsSmaller(plots * first, first);
      assert plots == (plots - first) + plots * first;
    }
  }

  /** The bookkeeping cannot grow: at every valid page there are at most as many charts as the
      cards in the grid have plots, however many payloads were painted before. */
  lemma ChartsAreBounded(page: Page)
    requires page.Valid()
    ensures |page.charts| <= PlotCount(page.grid, page.cores)
    ensures page.observed == page.charts.Keys
  {
    forall p | p in page.charts.Keys ensures exists c :: c in page.grid && p in PlotsOf(c, page.cores) {
      assert page.owner[p] in page.cards.Values;
    }
    PlotsAreCounted(page.grid, page.cores, page.charts.Keys);
    assert |page.charts| == |page.charts.Keys|;
  }

  /** The tab bar, if there is one, names hosts of the payload. */
  predicate AreTabsOf(tabs: Tabs, hosts: seq<Host>) {
    tabs.Tabs? ==> tabs.ids != [] && forall id :: id in tabs.ids ==> id in Ids(hosts)
  }

  /** With a tab bar exactly one host's card is visible, the shown one's; without one, every card is. */
  ghost predicate ShowsOneCard(cards: map<HostId, Card>, hosts: seq<Host>, tabs: Tabs, shown: Option<HostId>,
                               hidden: set<Card>) {
    && (tabs.Tabs? ==> shown.Some? && shown.value in Ids(hosts))
    && forall h :: h in hosts ==> h.id in cards && (cards[h.id] !in hidden <==> tabs.NoTabs? || shown == Some(h.id))
  }

  lemma OneCardIsVisible(cards: map<HostId, Card>, hosts: seq<Host>, tabs: Tabs, selected: Option<HostId>,
                         hidden: set<Card>, charts: map<Plot, History>, cores: Cells)
    requires AllShow(cards, hosts, |hosts|, Shown(tabs, selected), hidden, charts, cores) && AreTabsOf(tabs, hosts)
    ensures ShowsOneCard(cards, hosts, tabs, Shown(tabs, selected), hidden)
  {
    if tabs.Tabs? {
      assert tabs.ids[0] in tabs.ids;
    }
  }

  /** What drawing one card leaves as it was. */
  ghost predicate ForOthers(live: set<Card>, card: Card, hidden: set<Card>, charts: map<Plot, History>, cores: Cells,
                            charts': map<Plot, History>, cores': Cells) {
    forall c :: c in live && c != card ==> Untouched(c, hidden, charts, cores, hidden, charts', cores')
  }

  lemma OthersUntouched(cards: map<HostId, Card>, id: HostId, card: Card,
                        hidden: set<Card>, charts: map<Plot, History>, cores: Cells,
                        hidden': set<Card>, cores': Cells, charts'': map<Plot, History>, cores'': Cells)
    requires forall a :: a in cards && a != id ==> cards[a] != card && cards[a] in cores
    requires hidden' == hidden + {card} || hidden' == hidden - {card}
    requires cores' == cores || cores' == cores[card := []]
    requires ForOthers(cards[id := card].Values, card, hidden', charts, cores', charts'', cores'')
    ensures OnlyTouches(id, cards, hidden, charts, cores, hidden', charts'', cores'')
  {
    forall a | a in cards && a != id ensures Untouched(cards[a], hidden, charts, cores, hidden', charts'', cores'') {
      var m := cards[id := card];
      assert a in m && m[a] == cards[a] && m[a] in m.Values;
      assert Untouched(cards[a], hidden', charts, cores', hidden', charts'', cores'');
      assert PlotsOf(cards[a], cores') == PlotsOf(cards[a], cores);
    }
  }

  /** The plots keep what they showed. */
  ghost predicate KeepsPlots(before: map<Plot, History>, after: map<Plot, History>, plots: set<Plot>) {
    forall p :: p in plots ==> (p in before <==> p in after) && (p in before ==> after[p] == before[p])
  }
}
