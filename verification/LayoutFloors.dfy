/** `app/ui/layout-stability.js`: the minimum heights that keep the page from jumping, and the
    view identity each was measured under. */
module LayoutFloors {
  import opened Wrappers

  type Elem = nat

  /** What `configuration` reads: inside the Full view its source and tile, outside the tile's own
      attributes where there is a tile. */
  datatype Key = FullKey(source: string, tile: string, detail: string)
    | TileKey(source: string, presentation: string, scope: string, options: string)
    | DetailKey(detail: string)

  datatype Facts = Facts(visible: bool, inFull: bool, tile: Option<Key>, detail: string, width: real)

  /** The document as a callback finds it. `matching` are the elements the selector finds, which
      are connected. An open Full view has a source; a closed one has "". */
  datatype Page = Page(facts: map<Elem, Facts>, matching: set<Elem>, fullSource: string, fullTile: string)

  predicate IsPage(p: Page) {
    p.matching <= p.facts.Keys
  }

  predicate IsVisible(p: Page, e: Elem) { e in p.facts && p.facts[e].visible }

  predicate InFull(p: Page, e: Elem) { e in p.facts && p.facts[e].inFull }

  function Configuration(p: Page, e: Elem): Key
    requires e in p.facts
  {
    var f := p.facts[e];
    if f.inFull then FullKey(p.fullSource, p.fullTile, f.detail)
    else if f.tile.Some? then f.tile.value else DetailKey(f.detail)
  }

  datatype Record = Record(width: real, height: real, key: Key)

  /** `minHeight` holds the inline floors of all elements, tracked or not, and `measured` remembers
      the key each floor was measured under. */
  datatype State = State(tracked: map<Elem, Record>, minHeight: map<Elem, real>, frame: bool, released: bool,
                         measured: map<Elem, Key>)

  // ------------------------------------------------------------------ discover

  /** The tracked elements whose floor belongs to another view and is dropped at once. A Full view
      that is closing drops nothing. */
  predicate Drops(s: State, p: Page, e: Elem)
    requires IsPage(p)
  {
    && e in p.matching && e in s.tracked && s.tracked[e].key != Configuration(p, e)
    && !(InFull(p, e) && p.fullSource == "")
  }

  function Discovered(s: State, p: Page, e: Elem): Record
    requires IsPage(p) && e in p.facts
  {
    if e !in s.tracked then Record(0.0, 0.0, Configuration(p, e))
    else if Drops(s, p, e) then s.tracked[e].(height := 0.0, key := Configuration(p, e))
    else s.tracked[e]
  }

  function Records(s: State, p: Page, done: set<Elem>): map<Elem, Record>
    requires IsPage(p) && done <= p.matching
  {
    map e | e in p.facts && (e in s.tracked || e in done) :: if e in done then Discovered(s, p, e) else s.tracked[e]
  }

  function Dropped(s: State, p: Page, done: set<Elem>): set<Elem>
    requires IsPage(p)
  {
    set e | e in done && Drops(s, p, e)
  }

  /** The effect of `discover` on the elements of `done`, after it has forgotten the disconnected. */
  function DiscoveredSoFar(s: State, p: Page, done: set<Elem>): State
    requires IsPage(p) && done <= p.matching
  {
    State(Records(s, p, done),
          s.minHeight - Dropped(s, p, done),
          s.frame,
          s.released || (exists e :: e in done && Drops(s, p, e) && IsVisible(p, e)),
          s.measured)
  }

  function AfterDiscover(s: State, p: Page): State
    requires IsPage(p)
  {
    DiscoveredSoFar(s, p, p.matching).(frame := true)
  }

  // ------------------------------------------------------------------ the animation frame

  function Abs(x: real): real { if x < 0.0 then 0.0 - x else x }

  predicate IsObsolete(r: Record, p: Page, e: Elem)
    requires e in p.facts
  {
    (r.width != 0.0 && Abs(r.width - p.facts[e].width) > 1.0) || r.key != Configuration(p, e)
  }

  predicate Resets(s: State, p: Page) {
    s.released || exists e :: e in s.tracked && IsVisible(p, e) && IsObsolete(s.tracked[e], p, e)
  }

  function Shown(s: State, p: Page): set<Elem> {
    set e | e in s.tracked && IsVisible(p, e)
  }

  /** The frame measures every tracked element that is visible, and no height is negative. */
  predicate IsMeasured(s: State, p: Page, heights: map<Elem, real>) {
    forall e :: e in s.tracked && IsVisible(p, e) ==> e in heights && heights[e] >= 0.0
  }

  /** The snapshots of `done` taken, and their floors cleared if the frame resets. */
  function Cleared(s: State, p: Page, reset: bool, done: set<Elem>): State
    requires done <= p.facts.Keys
  {
    State((map e | e in s.tracked ::
             if e in done then Record(p.facts[e].width, if reset then 0.0 else s.tracked[e].height, Configuration(p, e))
             else s.tracked[e]),
          if reset then s.minHeight - done else s.minHeight,
          false, false, s.measured)
  }

  /** The elements of `done` that measured higher than the floor they have left. */
  function Risers(s: State, heights: map<Elem, real>, done: set<Elem>): set<Elem>
    requires done <= heights.Keys
  {
    set e | e in done && e in s.tracked && heights[e] > s.tracked[e].height
  }

  function Heightened(tracked: map<Elem, Record>, heights: map<Elem, real>, risers: set<Elem>): map<Elem, Record>
    requires risers <= heights.Keys
  {
    map e | e in tracked :: if e in risers then tracked[e].(height := heights[e]) else tracked[e]
  }

  function Measured(heights: map<Elem, real>, risers: set<Elem>): map<Elem, real>
    requires risers <= heights.Keys
  {
    map e | e in risers :: heights[e]
  }

  function KeysNow(p: Page, risers: set<Elem>): map<Elem, Key>
    requires risers <= p.facts.Keys
  {
    map e | e in risers :: Configuration(p, e)
  }

  /** Those elements raised to what they measured. */
  function Raised(s: State, p: Page, heights: map<Elem, real>, done: set<Elem>): State
    requires done <= heights.Keys && done <= p.facts.Keys
  {
    var risers := Risers(s, heights, done);
    State(Heightened(s.tracked, heights, risers),
          s.minHeight + Measured(heights, risers),
          s.frame, s.released,
          s.measured + KeysNow(p, risers))
  }

  /** `heights` are the heights measured in the frame, after every obsolete floor was cleared. */
  function AfterFrame(s: State, p: Page, heights: map<Elem, real>): State
    requires IsMeasured(s, p, heights)
  {
    Raised(Cleared(s, p, Resets(s, p), Shown(s, p)), p, heights, Shown(s, p))
  }

  // ------------------------------------------------------------------ one element at a time

  function DiscoverOne(t: State, p: Page, e: Elem): State
    requires IsPage(p) && e in p.matching
  {
    if e !in t.tracked then t.(tracked := t.tracked[e := Record(0.0, 0.0, Configuration(p, e))])
    else if Drops(t, p, e) then
      t.(minHeight := t.minHeight - {e},
         tracked := t.tracked[e := t.tracked[e].(height := 0.0, key := Configuration(p, e))],
         released := t.released || p.facts[e].visible)
    else t
  }

  lemma RecordsNext(s: State, p: Page, done: set<Elem>, e: Elem)
    requires IsPage(p) && done <= p.matching && e in p.matching
    ensures Records(s, p, done + {e}) == Records(s, p, done)[e := Discovered(s, p, e)]
  {}

  lemma DroppedNext(s: State, p: Page, done: set<Elem>, e: Elem)
    requires IsPage(p)
    ensures Dropped(s, p, done + {e}) == if Drops(s, p, e) then Dropped(s, p, done) + {e} else Dropped(s, p, done)
  {}

  lemma RemoveLast<V>(m: map<Elem, V>, keys: set<Elem>, e: Elem)
    ensures m - keys - {e} == m - (keys + {e})
  {}

  lemma DropsAsBefore(s: State, p: Page, done: set<Elem>, e: Elem)
    requires IsPage(p) && done <= p.matching && e in p.matching && e !in done
    ensures var t := DiscoveredSoFar(s, p, done);
      && (e in t.tracked <==> e in s.tracked) && (e in s.tracked ==> t.tracked[e] == s.tracked[e])
      && (Drops(t, p, e) <==> Drops(s, p, e))
  {}

  lemma PutSame<V>(m: map<Elem, V>, e: Elem)
    requires e in m
    ensures m[e := m[e]] == m
  {}

  lemma DiscoverNext(s: State, p: Page, done: set<Elem>, e: Elem)
    requires IsPage(p) && done <= p.matching && e in p.matching && e !in done
    ensures DiscoverOne(DiscoveredSoFar(s, p, done), p, e) == DiscoveredSoFar(s, p, done + {e})
  {
    var t := DiscoveredSoFar(s, p, done);
    DropsAsBefore(s, p, done, e);
    RecordsNext(s, p, done, e);
    DroppedNext(s, p, done, e);
    RemoveLast(s.minHeight, Dropped(s, p, done), e);
    if e in s.tracked {
      PutSame(t.tracked, e);
    }
  }

  function ClearOne(t: State, p: Page, reset: bool, e: Elem): State
    requires e in t.tracked && e in p.facts
  {
    t.(minHeight := if reset then t.minHeight - {e} else t.minHeight,
       tracked := t.tracked[e := Record(p.facts[e].width, if reset then 0.0 else t.tracked[e].height,
                                        Configuration(p, e))])
  }

  lemma ClearNext(s: State, p: Page, reset: bool, done: set<Elem>, e: Elem)
    requires done <= p.facts.Keys && e in s.tracked && e in p.facts && e !in done
    ensures ClearOne(Cleared(s, p, reset, done), p, reset, e) == Cleared(s, p, reset, done + {e})
  {
    var one, u := ClearOne(Cleared(s, p, reset, done), p, reset, e), Cleared(s, p, reset, done + {e});
    assert one.tracked == u.tracked;
    assert one.minHeight == u.minHeight;
  }

  function RaiseOne(t: State, p: Page, heights: map<Elem, real>, e: Elem): State
    requires e in t.tracked && e in p.facts && e in heights
  {
    if heights[e] > t.tracked[e].height then
      t.(tracked := t.tracked[e := t.tracked[e].(height := heights[e])],
         minHeight := t.minHeight[e := heights[e]],
         measured := t.measured[e := Configuration(p, e)])
    else t
  }

  lemma RaiseNext(s: State, p: Page, heights: map<Elem, real>, done: set<Elem>, e: Elem)
    requires done <= p.facts.Keys && done <= heights.Keys
    requires e in s.tracked && e in p.facts && e in heights && e !in done
    ensures RaiseOne(Raised(s, p, heights, done), p, heights, e) == Raised(s, p, heights, done + {e})
  {
    var risers := Risers(s, heights, done);
    assert Risers(s, heights, done + {e}) == if heights[e] > s.tracked[e].height then risers + {e} else risers;
    assert Raised(s, p, heights, done).tracked[e] == s.tracked[e];
    if heights[e] > s.tracked[e].height {
      HeightenedNext(s.tracked, heights, risers, e);
      MeasuredNext(heights, risers, e);
      KeysNext(p, risers, e);
      PutLast(s.minHeight, Measured(heights, risers), e, heights[e]);
      PutLast(s.measured, KeysNow(p, risers), e, Configuration(p, e));
    }
  }

  lemma HeightenedNext(tracked: map<Elem, Record>, heights: map<Elem, real>, risers: set<Elem>, e: Elem)
    requires risers <= heights.Keys && e in tracked && e in heights && e !in risers
    ensures Heightened(tracked, heights, risers)[e := tracked[e].(height := heights[e])]
         == Heightened(tracked, heights, risers + {e})
  {}

  lemma MeasuredNext(heights: map<Elem, real>, risers: set<Elem>, e: Elem)
    requires risers <= heights.Keys && e in heights
    ensures Measured(heights, risers + {e}) == Measured(heights, risers)[e := heights[e]]
  {}

  lemma KeysNext(p: Page, risers: set<Elem>, e: Elem)
    requires risers <= p.facts.Keys && e in p.facts
    ensures KeysNow(p, risers + {e}) == KeysNow(p, risers)[e := Configuration(p, e)]
  {}

  lemma PutLast<V>(m: map<Elem, V>, n: map<Elem, V>, e: Elem, v: V)
    ensures (m + n)[e := v] == m + n[e := v]
  {}

  // ------------------------------------------------------------------ the code

  class LayoutStability {
    var tracked: map<Elem, Record>
    var minHeight: map<Elem, real>
    var frame: bool
    var released: bool
    var measured: map<Elem, Key>

    function Contents(): State
      reads this
    {
      State(tracked, minHeight, frame, released, measured)
    }

    /** The script starts on a page that may already carry inline floors. */
    constructor (minHeight: map<Elem, real>)
      ensures Contents() == State(map[], minHeight, false, false, map[])
    {
      this.tracked, this.minHeight, this.frame, this.released, this.measured := map[], minHeight, false, false, map[];
    }

    method ForgetDisconnected(p: Page)
      requires IsPage(p)
      modifies this`tracked
      ensures Contents() == DiscoveredSoFar(old(Contents()), p, {})
    {
      var gone := tracked.Keys - p.facts.Keys;
      while gone != {}
        invariant gone <= old(tracked).Keys - p.facts.Keys
        invariant tracked == map e | e in old(tracked) && (e in p.facts || e in gone) :: old(tracked)[e]
        decreases gone
      {
        var e :| e in gone;
        tracked := tracked - {e};
        gone := gone - {e};
      }
      ghost var s := DiscoveredSoFar(old(Contents()), p, {});
      assert tracked == s.tracked;
      assert minHeight == s.minHeight;
    }

    method Discover(p: Page)
      requires IsPage(p)
      modifies this
      ensures Contents() == AfterDiscover(old(Contents()), p)
    {
      ghost var s := Contents();
      ForgetDisconnected(p);
      var todo := p.matching;
      ghost var done: set<Elem> := {};
      while todo != {}
        invariant todo + done == p.matching && todo !! done
        invariant Contents() == DiscoveredSoFar(s, p, done)
        decreases todo
      {
        var e :| e in todo;
        DiscoverNext(s, p, done, e);
        DiscoverElement(p, e);
        todo, done := todo - {e}, done + {e};
      }
      frame := true;
    }

    method DiscoverElement(p: Page, e: Elem)
      requires IsPage(p) && e in p.matching
      modifies this`tracked, this`minHeight, this`released
      ensures Contents() == DiscoverOne(old(Contents()), p, e)
    {
      var key := Configuration(p, e);
      if e in tracked {
        var closing := p.facts[e].inFull && p.fullSource == "";
        if tracked[e].key != key && !closing {
          minHeight := minHeight - {e};
          tracked := tracked[e := tracked[e].(height := 0.0, key := key)];
          if p.facts[e].visible {
            released := true;
          }
        }
      } else {
        tracked := tracked[e := Record(0.0, 0.0, key)];
      }
    }

    method Frame(p: Page, heights: map<Elem, real>)
      requires IsMeasured(Contents(), p, heights)
      modifies this
      ensures Contents() == AfterFrame(old(Contents()), p, heights)
      ensures !frame && !released && tracked.Keys == old(tracked).Keys
      ensures old(released) || (exists x :: HasChanged(old(tracked), p, x)) ==>
                forall e :: e in tracked && IsVisible(p, e) ==>
                  tracked[e].height == heights[e]
                  && (heights[e] > 0.0 ==> e in minHeight && minHeight[e] == heights[e])
                  && (heights[e] == 0.0 ==> e !in minHeight)
      ensures !old(released) && !(exists x :: HasChanged(old(tracked), p, x)) ==>
                forall e :: e in tracked && IsVisible(p, e) ==>
                  tracked[e].height ==
                    if heights[e] > old(tracked)[e].height then heights[e] else old(tracked)[e].height
    {
      ghost var s := Contents();
      FrameMeasures(s, p, heights);
      frame := false;
      var shown := Shown(Contents(), p);
      var reset := Resets(Contents(), p);
      released := false;
      TakeSnapshots(s, p, shown, reset);
      Raise(p, heights, shown);
    }

    method TakeSnapshots(ghost s: State, p: Page, shown: set<Elem>, reset: bool)
      requires Contents() == s.(frame := false, released := false)
      requires shown <= tracked.Keys && shown <= p.facts.Keys
      modifies this`tracked, this`minHeight
      ensures Contents() == Cleared(s, p, reset, shown)
    {
      var todo := shown;
      ghost var done: set<Elem> := {};
      assert Cleared(s, p, reset, done).tracked == tracked && Cleared(s, p, reset, done).minHeight == minHeight;
      while todo != {}
        invariant todo + done == shown && todo !! done
        invariant Contents() == Cleared(s, p, reset, done)
        decreases todo
      {
        var e :| e in todo;
        ClearNext(s, p, reset, done, e);
        TakeSnapshot(p, reset, e);
        todo, done := todo - {e}, done + {e};
      }
    }

    method TakeSnapshot(p: Page, reset: bool, e: Elem)
      requires e in tracked && e in p.facts
      modifies this`tracked, this`minHeight
      ensures Contents() == ClearOne(old(Contents()), p, reset, e)
    {
      if reset {
        minHeight := minHeight - {e};
        tracked := tracked[e := tracked[e].(height := 0.0)];
      }
      tracked := tracked[e := tracked[e].(width := p.facts[e].width, key := Configuration(p, e))];
    }

    method Raise(p: Page, heights: map<Elem, real>, shown: set<Elem>)
      requires shown <= tracked.Keys && shown <= p.facts.Keys && shown <= heights.Keys
      modifies this`tracked, this`minHeight, this`measured
      ensures Contents() == Raised(old(Contents()), p, heights, shown)
    {
      ghost var s := Contents();
      var todo := shown;
      ghost var done: set<Elem> := {};
      assert Raised(s, p, heights, done).tracked == tracked;
      while todo != {}
        invariant todo + done == shown && todo !! done
        invariant Contents() == Raised(s, p, heights, done)
        decreases todo
      {
        var e :| e in todo;
        RaiseNext(s, p, heights, done, e);
        RaiseElement(p, heights, e);
        todo, done := todo - {e}, done + {e};
      }
    }

    method RaiseElement(p: Page, heights: map<Elem, real>, e: Elem)
      requires e in tracked && e in p.facts && e in heights
      modifies this`tracked, this`minHeight, this`measured
      ensures Contents() == RaiseOne(old(Contents()), p, heights, e)
    {
      if heights[e] > tracked[e].height {
        tracked := tracked[e := tracked[e].(height := heights[e])];
        minHeight := minHeight[e := heights[e]];
        measured := measured[e := Configuration(p, e)];
      }
    }
  }

  // ------------------------------------------------------------------ what every reachable state keeps

  /** A tracked element's inline floor is its recorded height; no height is no floor. */
  predicate Mirrors(s: State) {
    forall e :: e in s.tracked ==> MirrorsAt(s, e)
  }

  predicate MirrorsAt(s: State, e: Elem)
    requires e in s.tracked
  {
    && s.tracked[e].height >= 0.0
    && (if s.tracked[e].height > 0.0 then e in s.minHeight && s.minHeight[e] == s.tracked[e].height
        else e !in s.minHeight)
  }

  /** A recorded floor was measured under the recorded key. */
  predicate OwnFloors(s: State) {
    forall e :: e in s.tracked && s.tracked[e].height > 0.0 ==> e in s.measured && s.measured[e] == s.tracked[e].key
  }

  /** `discover` keeps the mirror exactly when no element it starts to track carries an inline
      floor already. */
  lemma DiscoverMirrors(s: State, p: Page)
    requires IsPage(p) && Mirrors(s)
    ensures Mirrors(AfterDiscover(s, p)) <==> forall e :: e in p.matching && e !in s.tracked ==> e !in s.minHeight
  {
    var t := AfterDiscover(s, p);
    forall e | e in t.tracked && e in s.tracked ensures MirrorsAt(t, e) {
      assert MirrorsAt(s, e);
      assert t.tracked[e] == s.tracked[e] || Drops(s, p, e);
    }
    forall e | e in p.matching && e !in s.tracked
      ensures e in t.tracked && (MirrorsAt(t, e) <==> e !in s.minHeight)
    {
      assert !Drops(s, p, e) && t.tracked[e] == Record(0.0, 0.0, Configuration(p, e));
    }
  }

  /** A frame always keeps the mirror, and never mixes two views' floors. */
  lemma FrameMirrors(s: State, p: Page, heights: map<Elem, real>)
    requires IsMeasured(s, p, heights) && Mirrors(s)
    ensures Mirrors(AfterFrame(s, p, heights))
  {
    assert Mirrors(Cleared(s, p, Resets(s, p), Shown(s, p)));
  }

  lemma FrameKeepsOwnFloors(s: State, p: Page, heights: map<Elem, real>)
    requires IsMeasured(s, p, heights) && OwnFloors(s)
    ensures OwnFloors(AfterFrame(s, p, heights))
  {
    forall e | e in Shown(s, p) && !Resets(s, p) ensures s.tracked[e].key == Configuration(p, e) {
      assert !IsObsolete(s.tracked[e], p, e);
    }
    assert OwnFloors(Cleared(s, p, Resets(s, p), Shown(s, p)));
  }

  lemma DiscoverKeepsOwnFloors(s: State, p: Page)
    requires IsPage(p) && OwnFloors(s)
    ensures OwnFloors(AfterDiscover(s, p))
  {
    var t := AfterDiscover(s, p);
    forall e | e in t.tracked && t.tracked[e].height > 0.0 ensures e in s.tracked && t.tracked[e] == s.tracked[e] {}
  }

  datatype Event = MutationsSeen(page: Page) | FrameRuns(page: Page, heights: map<Elem, real>) | Resized

  /** One callback. A resize only asks for a frame, and a frame runs only when one was asked for. */
  function Step(s: State, event: Event): State
    requires IsPossible(s, event)
  {
    match event
    case MutationsSeen(p) => AfterDiscover(s, p)
    case FrameRuns(p, heights) => AfterFrame(s, p, heights)
    case Resized => s.(frame := true)
  }

  predicate IsPossible(s: State, event: Event) {
    match event
    case MutationsSeen(p) => IsPage(p)
    case FrameRuns(p, heights) => s.frame && IsMeasured(s, p, heights)
    case Resized => true
  }

  /** No element comes to be tracked with an inline floor. */
  predicate TracksCleanElements(s: State, event: Event) {
    event.MutationsSeen? ==> forall e :: e in event.page.matching && e !in s.tracked ==> e !in s.minHeight
  }

  predicate IsRun(s: State, events: seq<Event>)
    decreases |events|
  {
    events == [] || (IsPossible(s, events[0]) && IsRun(Step(s, events[0]), events[1..]))
  }

  predicate TracksClean(s: State, events: seq<Event>)
    requires IsRun(s, events)
    decreases |events|
  {
    events == [] || (TracksCleanElements(s, events[0]) && TracksClean(Step(s, events[0]), events[1..]))
  }

  function Run(s: State, events: seq<Event>): State
    requires IsRun(s, events)
    decreases |events|
  {
    if events == [] then s else Run(Step(s, events[0]), events[1..])
  }

  /** In every run a frame is waiting exactly when something asked for one after the last that ran, and
      resizes alone change nothing else. */
  lemma {:induction false} FrameIsWaiting(s: State, events: seq<Event>)
    requires IsRun(s, events)
    ensures Run(s, events).frame <==> if events == [] then s.frame else !events[|events| - 1].FrameRuns?
    ensures (forall k :: 0 <= k < |events| ==> events[k] == Resized) ==>
              var t := Run(s, events);
              && t.tracked == s.tracked && t.minHeight == s.minHeight && t.released == s.released
              && t.measured == s.measured
    decreases |events|
  {
    if events != [] {
      FrameIsWaiting(Step(s, events[0]), events[1..]);
      assert events[1..] == [] ==> |events| == 1;
      assert events[1..] != [] ==> events[1..][|events| - 2] == events[|events| - 1];
    }
  }

  /** In every run every floor was measured under the key it is recorded with. */
  lemma {:induction false} FloorsAreOwn(s: State, events: seq<Event>)
    requires IsRun(s, events) && OwnFloors(s)
    ensures OwnFloors(Run(s, events))
    decreases |events|
  {
    if events != [] {
      match events[0] {
        case MutationsSeen(p) => DiscoverKeepsOwnFloors(s, p);
        case FrameRuns(p, heights) => FrameKeepsOwnFloors(s, p, heights);
        case Resized =>
      }
      FloorsAreOwn(Step(s, events[0]), events[1..]);
    }
  }

  /** In every run that tracks clean elements the inline floors are the recorded ones. */
  lemma {:induction false} FloorsMirror(s: State, events: seq<Event>)
    requires IsRun(s, events) && Mirrors(s) && TracksClean(s, events)
    ensures Mirrors(Run(s, events))
    decreases |events|
  {
    if events != [] {
      match events[0] {
        case MutationsSeen(p) => DiscoverMirrors(s, p);
        case FrameRuns(p, heights) => FrameMirrors(s, p, heights);
        case Resized =>
      }
      FloorsMirror(Step(s, events[0]), events[1..]);
    }
  }

  // ------------------------------------------------------------------ the element that comes back

  /** An element that leaves the document and comes back keeps the floor it had, under whatever key
      it was measured, while its record starts again from nothing. */
  lemma ReattachedElementKeepsItsFloor(s: State, gone: Page, back: Page, e: Elem)
    requires IsPage(gone) && e !in gone.facts && IsPage(back) && e in back.matching && e in s.minHeight
    ensures var t := AfterDiscover(AfterDiscover(s, gone), back);
      && e in t.tracked && t.tracked[e] == Record(0.0, 0.0, Configuration(back, e))
      && e in t.minHeight && t.minHeight[e] == s.minHeight[e] && !MirrorsAt(t, e)
      && (e in s.measured ==> e in t.measured && t.measured[e] == s.measured[e])
  {
    var left := AfterDiscover(s, gone);
    assert e !in left.tracked && e in left.minHeight && !Drops(left, back, e);
  }

  const START := State(map[], map[], false, false, map[])

  /** The page with one element, 1, shown 300 wide outside the Full view. */
  function Outside(tile: Key): Page {
    Page(map[1 := Facts(true, false, Some(tile), "ready", 300.0)], {1}, "", "")
  }

  function FirstRecord(tile: Key): State {
    State(map[1 := Record(0.0, 0.0, tile)], map[], true, false, map[])
  }

  lemma FirstFound(tile: Key)
    ensures AfterDiscover(START, Outside(tile)) == FirstRecord(tile)
  {
    var t := AfterDiscover(START, Outside(tile));
    assert t.tracked == FirstRecord(tile).tracked;
    assert t.minHeight == map[];
  }

  lemma FirstFloor(tile: Key, height: real)
    requires height > 0.0
    ensures IsMeasured(FirstRecord(tile), Outside(tile), map[1 := height])
    ensures var t := AfterFrame(FirstRecord(tile), Outside(tile), map[1 := height]);
      && 1 in t.tracked && t.tracked[1].height == height && 1 in t.minHeight && t.minHeight[1] == height
      && 1 in t.measured && t.measured[1] == tile
  {
    var s, p, heights := FirstRecord(tile), Outside(tile), map[1 := height];
    assert Shown(s, p) == {1};
    assert !Resets(s, p);
    assert Risers(Cleared(s, p, false, {1}), heights, {1}) == {1};
  }

  const GONE := Page(map[], {}, "", "")

  /** Element 1 is found outside the Full view and measured, leaves, and is found again on `inside`. */
  function LeavesAndComesBack(tile: Key, height: real, inside: Page): seq<Event> {
    [MutationsSeen(Outside(tile)), FrameRuns(Outside(tile), map[1 := height]), MutationsSeen(GONE),
     MutationsSeen(inside)]
  }

  predicate IsOpenAround(inside: Page, e: Elem) {
    IsPage(inside) && e in inside.matching && InFull(inside, e) && inside.fullSource != ""
  }

  /** Nothing is tracked but what the page's mutation callback has just found. */
  predicate HasJustFound(t: State, p: Page) {
    && t.frame && !t.released
    && forall e :: e in t.tracked ==> e in p.facts && t.tracked[e] == Record(0.0, 0.0, Configuration(p, e))
  }

  /** From the start of the script: element 1 comes back inside an open Full view. Right after that
      mutation callback it is laid out at the floor measured under its old tile's key. */
  lemma AForeignFloorIsReachable(tile: Key, height: real, inside: Page)
    requires height > 0.0 && tile.TileKey? && IsOpenAround(inside, 1)
    ensures var events := LeavesAndComesBack(tile, height, inside);
      && IsRun(START, events)
      && var t := Run(START, events);
      && 1 in t.tracked && HasJustFound(t, inside)
      && 1 in t.minHeight && t.minHeight[1] == height && 1 in t.measured && t.measured[1] == tile
      && !HasNoForeignFloor(t, inside, 1)
  {
    FirstFound(tile);
    FirstFloor(tile, height);
    var framed := AfterFrame(FirstRecord(tile), Outside(tile), map[1 := height]);
    ReattachedElementKeepsItsFloor(framed, GONE, inside, 1);
    FoundOnAnEmptyRecord(framed, inside);
    RunOfFour(START, MutationsSeen(Outside(tile)), FrameRuns(Outside(tile), map[1 := height]),
              MutationsSeen(GONE), MutationsSeen(inside));
  }

  lemma FoundOnAnEmptyRecord(s: State, p: Page)
    requires IsPage(p) && !s.released
    ensures HasJustFound(AfterDiscover(AfterDiscover(s, GONE), p), p)
  {
    var left := AfterDiscover(s, GONE);
    assert left.tracked == map[] && !left.released;
  }

  /** Further mutation callbacks with the view unchanged do not help, however many there are: the
      element is tracked now, under the view's own key, and keeps the foreign floor. */
  lemma {:induction false} AForeignFloorStays(s: State, p: Page, e: Elem, events: seq<Event>)
    requires IsOpenAround(p, e) && e in s.tracked && s.tracked[e].key == Configuration(p, e)
    requires forall event :: event in events ==> event == MutationsSeen(p) || event == Resized
    ensures IsRun(s, events)
    ensures var t := Run(s, events);
      && e in t.tracked && t.tracked[e] == s.tracked[e] && t.measured == s.measured
      && (e in t.minHeight <==> e in s.minHeight) && (e in s.minHeight ==> t.minHeight[e] == s.minHeight[e])
      && (HasNoForeignFloor(t, p, e) <==> HasNoForeignFloor(s, p, e))
    decreases |events|
  {
    if events != [] {
      assert events[0] in events;
      assert !Drops(s, p, e);
      assert forall event :: event in events[1..] ==> event in events;
      AForeignFloorStays(Step(s, events[0]), p, e, events[1..]);
    }
  }

  /** So an element can be tracked, with every recorded floor its own, and still be laid out at a
      foreign floor: the state after one more mutation callback, or any number of them. */
  lemma TrackedIsNotEnough(tile: Key, height: real, inside: Page, more: seq<Event>)
    requires height > 0.0 && tile.TileKey? && IsOpenAround(inside, 1)
    requires forall event :: event in more ==> event == MutationsSeen(inside) || event == Resized
    ensures var events := LeavesAndComesBack(tile, height, inside) + more;
      && IsRun(START, events)
      && var t := Run(START, events);
      1 in t.tracked && OwnFloors(t) && !HasNoForeignFloor(t, inside, 1)
  {
    var events := LeavesAndComesBack(tile, height, inside);
    AForeignFloorIsReachable(tile, height, inside);
    AForeignFloorStays(Run(START, events), inside, 1, more);
    RunConcat(START, events, more);
    FloorsAreOwn(START, events + more);
  }

  /** The next frame that shows such an element and does not reset measures it no lower than the floor
      it stands on, and takes that for its own: the old height stays, under the view's key. */
  lemma AFloorIsAdopted(s: State, p: Page, heights: map<Elem, real>, e: Elem)
    requires IsMeasured(s, p, heights) && !Resets(s, p) && e in s.tracked && IsVisible(p, e)
    requires e in s.minHeight && s.tracked[e].height < s.minHeight[e] <= heights[e]
    ensures var t := AfterFrame(s, p, heights);
      && t.tracked[e] == Record(p.facts[e].width, heights[e], Configuration(p, e))
      && e in t.minHeight && t.minHeight[e] == heights[e] && e in t.measured && t.measured[e] == Configuration(p, e)
  {
    assert !IsObsolete(s.tracked[e], p, e);
  }

  /** That is what becomes of the foreign floor. `heights` is what the browser measures: no element
      lower than its floor. */
  lemma AForeignFloorIsAdopted(tile: Key, height: real, inside: Page, heights: map<Elem, real>)
    requires height > 0.0 && tile.TileKey? && IsOpenAround(inside, 1) && IsVisible(inside, 1)
    requires (forall e :: IsVisible(inside, e) ==> e in heights && heights[e] >= 0.0) && heights[1] >= height
    ensures var events := LeavesAndComesBack(tile, height, inside) + [FrameRuns(inside, heights)];
      && IsRun(START, events)
      && var t := Run(START, events);
      && 1 in t.tracked && t.tracked[1].height >= height && 1 in t.minHeight && t.minHeight[1] >= height
      && HasNoForeignFloor(t, inside, 1)
  {
    var events := LeavesAndComesBack(tile, height, inside);
    AForeignFloorIsReachable(tile, height, inside);
    var s := Run(START, events);
    assert !Resets(s, inside);
    AFloorIsAdopted(s, inside, heights, 1);
    RunCons(s, FrameRuns(inside, heights), []);
    assert [FrameRuns(inside, heights)] + [] == [FrameRuns(inside, heights)];
    RunConcat(START, events, [FrameRuns(inside, heights)]);
  }

  lemma {:induction false} RunConcat(s: State, a: seq<Event>, b: seq<Event>)
    requires IsRun(s, a) && IsRun(Run(s, a), b)
    ensures IsRun(s, a + b) && Run(s, a + b) == Run(Run(s, a), b)
    decreases |a|
  {
    if a == [] {
      assert a + b == b;
    } else {
      assert (a + b)[1..] == a[1..] + b;
      RunConcat(Step(s, a[0]), a[1..], b);
    }
  }

  lemma RunOfFour(s: State, e0: Event, e1: Event, e2: Event, e3: Event)
    requires IsPossible(s, e0) && IsPossible(Step(s, e0), e1) && IsPossible(Step(Step(s, e0), e1), e2)
    requires IsPossible(Step(Step(Step(s, e0), e1), e2), e3)
    ensures IsRun(s, [e0, e1, e2, e3])
    ensures Run(s, [e0, e1, e2, e3]) == Step(Step(Step(Step(s, e0), e1), e2), e3)
  {
    var s1 := Step(s, e0);
    var s2 := Step(s1, e1);
    var s3 := Step(s2, e2);
    RunCons(s3, e3, []);
    RunCons(s2, e2, [e3]);
    RunCons(s1, e1, [e2, e3]);
    RunCons(s, e0, [e1, e2, e3]);
    assert [e3] + [] == [e3];
  }

  lemma RunCons(s: State, event: Event, rest: seq<Event>)
    requires IsPossible(s, event) && IsRun(Step(s, event), rest)
    ensures IsRun(s, [event] + rest) && Run(s, [event] + rest) == Run(Step(s, event), rest)
  {
    assert ([event] + rest)[1..] == rest;
  }

  // ------------------------------------------------------------------ the Full view

  /** The inline floor of an element inside an open Full view, if it has one, was measured in it. */
  predicate HasNoForeignFloor(t: State, p: Page, e: Elem)
    requires e in p.facts
  {
    e in t.minHeight ==> e in t.measured && t.measured[e] == FullKey(p.fullSource, p.fullTile, p.facts[e].detail)
  }

  /** As soon as the mutation callback has run with a Full view open, before any frame, an element
      inside it is laid out at no floor measured for another tile or outside it, exactly when it was
      recorded under another view's key, so that its floor is dropped now, or carried no floor, or
      carried one measured in this very view. That it was tracked is not enough. This holds of every
      state, reachable or not. */
  lemma NoForeignFloorInFullView(s: State, p: Page, e: Elem)
    requires IsPage(p) && p.fullSource != "" && e in p.matching && InFull(p, e)
    ensures HasNoForeignFloor(AfterDiscover(s, p), p, e)
       <==> || (e in s.tracked && s.tracked[e].key != Configuration(p, e))
            || e !in s.minHeight
            || (e in s.measured && s.measured[e] == Configuration(p, e))
    ensures var t := AfterDiscover(s, p);
      && e in t.tracked
      && (OwnFloors(s) && t.tracked[e].height > 0.0 ==> e in t.measured && t.measured[e] == Configuration(p, e))
  {
    assert Drops(s, p, e) <==> e in s.tracked && s.tracked[e].key != Configuration(p, e);
    if OwnFloors(s) {
      DiscoverKeepsOwnFloors(s, p);
    }
  }

  /** Where record and floor agree, it is enough that the element was tracked. */
  lemma TrackedIsEnoughWhereFloorsMirror(s: State, p: Page, e: Elem)
    requires IsPage(p) && OwnFloors(s) && Mirrors(s) && p.fullSource != "" && e in p.matching && InFull(p, e)
    ensures HasNoForeignFloor(AfterDiscover(s, p), p, e)
       <==> e in s.tracked || e !in s.minHeight || (e in s.measured && s.measured[e] == Configuration(p, e))
  {
    NoForeignFloorInFullView(s, p, e);
    assert e in s.tracked ==> MirrorsAt(s, e);
  }

  /** So in every run from the start that tracks clean elements, no mutation callback leaves a foreign
      floor in an open Full view. */
  lemma CleanRunsShowNoForeignFloor(events: seq<Event>, p: Page, e: Elem)
    requires IsRun(START, events) && TracksClean(START, events)
    requires IsPage(p) && TracksCleanElements(Run(START, events), MutationsSeen(p))
    requires p.fullSource != "" && e in p.matching && InFull(p, e)
    ensures HasNoForeignFloor(AfterDiscover(Run(START, events), p), p, e)
  {
    FloorsMirror(START, events);
    FloorsAreOwn(START, events);
    TrackedIsEnoughWhereFloorsMirror(Run(START, events), p, e);
  }

  // ------------------------------------------------------------------ the floor between two resets

  /** A frame that shows e at height h. */
  predicate Measures(event: Event, e: Elem, h: real) {
    event.FrameRuns? && IsVisible(event.page, e) && e in event.heights && event.heights[e] == h
  }

  /** Nothing happens to e's floor but measuring: e stays in the document, no view change drops its
      floor, and no frame that shows it resets. */
  predicate LeavesFloor(s: State, event: Event, e: Elem)
    requires IsPossible(s, event)
  {
    match event
    case MutationsSeen(p) => e in p.facts && !Drops(s, p, e)
    case FrameRuns(p, _) => IsVisible(p, e) ==> !Resets(s, p)
    case Resized => true
  }

  predicate Undisturbed(s: State, events: seq<Event>, e: Elem)
    requires IsRun(s, events)
    decreases |events|
  {
    events == [] || (LeavesFloor(s, events[0], e) && Undisturbed(Step(s, events[0]), events[1..], e))
  }

  lemma StepRaises(s: State, event: Event, e: Elem)
    requires IsPossible(s, event) && e in s.tracked && LeavesFloor(s, event, e)
    ensures var t := Step(s, event);
      && e in t.tracked && t.tracked[e].key == s.tracked[e].key && t.tracked[e].height >= s.tracked[e].height
      && (forall h :: Measures(event, e, h) ==> t.tracked[e].height >= h)
      && (t.tracked[e].height == s.tracked[e].height || Measures(event, e, t.tracked[e].height))
      && (MirrorsAt(s, e) ==> MirrorsAt(t, e))
  {
    if event.FrameRuns? && IsVisible(event.page, e) {
      assert !IsObsolete(s.tracked[e], event.page, e);
    }
  }

  /** Between resets floors only grow: over any run that leaves e's floor undisturbed, its floor is the
      greatest of the one it had and of every height measured since, under the same key, and the inline
      floor is that one. */
  lemma {:induction false} FloorIsGreatestSinceReset(s: State, events: seq<Event>, e: Elem)
    requires IsRun(s, events) && e in s.tracked && Undisturbed(s, events, e)
    ensures var t := Run(s, events);
      && e in t.tracked && t.tracked[e].key == s.tracked[e].key && t.tracked[e].height >= s.tracked[e].height
      && (forall k, h :: 0 <= k < |events| && Measures(events[k], e, h) ==> t.tracked[e].height >= h)
      && (t.tracked[e].height == s.tracked[e].height
          || exists k :: 0 <= k < |events| && Measures(events[k], e, t.tracked[e].height))
      && (MirrorsAt(s, e) ==> MirrorsAt(t, e))
    decreases |events|
  {
    if events != [] {
      var next, rest := Step(s, events[0]), events[1..];
      StepRaises(s, events[0], e);
      FloorIsGreatestSinceReset(next, rest, e);
      var t := Run(next, rest);
      forall k, h | 0 <= k < |events| && Measures(events[k], e, h) ensures t.tracked[e].height >= h {
        assert k > 0 ==> events[k] == rest[k - 1];
      }
      if t.tracked[e].height != next.tracked[e].height {
        var k :| 0 <= k < |rest| && Measures(rest[k], e, t.tracked[e].height);
        assert Measures(events[k + 1], e, t.tracked[e].height);
      } else if t.tracked[e].height != s.tracked[e].height {
        assert Measures(events[0], e, t.tracked[e].height);
      }
    }
  }

  lemma ResetMeasuresAgain(s: State, p: Page, heights: map<Elem, real>, e: Elem)
    requires IsMeasured(s, p, heights) && e in s.tracked && Resets(s, p) && IsVisible(p, e)
    ensures AfterFrame(s, p, heights).tracked[e] == Record(p.facts[e].width, heights[e], Configuration(p, e))
  {}

  /** A shown element is wider or narrower by more than a pixel than when it was measured last, or shown
      in another view. */
  ghost predicate HasChanged(tracked: map<Elem, Record>, p: Page, x: Elem) {
    && x in tracked && x in p.facts && p.facts[x].visible
    && (|| (tracked[x].width != 0.0 && tracked[x].width - p.facts[x].width > 1.0)
        || (tracked[x].width != 0.0 && p.facts[x].width - tracked[x].width > 1.0)
        || !IsInView(p, x, tracked[x].key))
  }

  /** The view of an element: in the Full view its source, tile and detail, elsewhere its tile, and its
      detail where there is no tile. */
  predicate IsInView(p: Page, e: Elem, key: Key)
    requires e in p.facts
  {
    && (p.facts[e].inFull ==> key == FullKey(p.fullSource, p.fullTile, p.facts[e].detail))
    && (!p.facts[e].inFull && p.facts[e].tile.Some? ==> key == p.facts[e].tile.value)
    && (!p.facts[e].inFull && p.facts[e].tile.None? ==> key == DetailKey(p.facts[e].detail))
  }

  /** The three causes of a reset. */
  lemma ResetsIsSpelledOut(s: State, p: Page)
    ensures Resets(s, p) <==> s.released || exists x :: HasChanged(s.tracked, p, x)
  {
    forall x | x in s.tracked && IsVisible(p, x)
      ensures IsObsolete(s.tracked[x], p, x) <==> HasChanged(s.tracked, p, x)
    {}
    if exists x :: HasChanged(s.tracked, p, x) {
      var x :| HasChanged(s.tracked, p, x);
      assert IsVisible(p, x) && IsObsolete(s.tracked[x], p, x);
    }
  }

  /** What a frame does to every element it shows: if a visible floor was released since the frame before,
      or anything shown has changed, all are measured afresh; otherwise each keeps the greater of its floor
      and its height. */
  lemma FrameMeasures(s: State, p: Page, heights: map<Elem, real>)
    requires IsMeasured(s, p, heights)
    ensures var t := AfterFrame(s, p, heights);
      && t.tracked.Keys == s.tracked.Keys && !t.frame && !t.released
      && (forall e :: e in s.tracked && IsVisible(p, e) ==>
            t.tracked[e].width == p.facts[e].width && IsInView(p, e, t.tracked[e].key))
      && (forall e :: e in s.tracked && !IsVisible(p, e) ==> t.tracked[e] == s.tracked[e])
      && (forall e :: e !in s.tracked || !IsVisible(p, e) ==>
            (e in t.minHeight <==> e in s.minHeight) && (e in s.minHeight ==> t.minHeight[e] == s.minHeight[e]))
      && (s.released || (exists x :: HasChanged(s.tracked, p, x)) ==>
            forall e :: e in s.tracked && IsVisible(p, e) ==>
              && t.tracked[e].height == heights[e]
              && (heights[e] > 0.0 ==> e in t.minHeight && t.minHeight[e] == heights[e])
              && (heights[e] == 0.0 ==> e !in t.minHeight))
      && (!s.released && !(exists x :: HasChanged(s.tracked, p, x)) ==>
            forall e :: e in s.tracked && IsVisible(p, e) ==>
              && (heights[e] > s.tracked[e].height ==>
                    t.tracked[e].height == heights[e] && e in t.minHeight && t.minHeight[e] == heights[e])
              && (heights[e] <= s.tracked[e].height ==>
                    && t.tracked[e].height == s.tracked[e].height && (e in t.minHeight <==> e in s.minHeight)
                    && (e in s.minHeight ==> t.minHeight[e] == s.minHeight[e])))
  {
    ResetsIsSpelledOut(s, p);
    assert AfterFrame(s, p, heights).tracked.Keys == s.tracked.Keys;
  }

  /** A frame can lower the floor of an element it shows exactly when a visible floor was released since
      the frame before, or something it shows, that element or another, changed its width by more than a
      pixel or its view. */
  lemma FrameLowersExactlyWhenItResets(s: State, p: Page, e: Elem)
    requires e in s.tracked && s.tracked[e].height > 0.0 && IsVisible(p, e)
    ensures (exists heights :: IsMeasured(s, p, heights)
                               && AfterFrame(s, p, heights).tracked[e].height < s.tracked[e].height)
       <==> s.released || exists x :: HasChanged(s.tracked, p, x)
  {
    ResetsIsSpelledOut(s, p);
    if Resets(s, p) {
      var flat := map x | x in p.facts :: 0.0;
      assert IsMeasured(s, p, flat);
      ResetMeasuresAgain(s, p, flat, e);
    }
  }

  /** What the mutation callback does to every element. */
  lemma DiscoverSpelledOut(s: State, p: Page, e: Elem)
    requires IsPage(p)
    ensures var t := AfterDiscover(s, p);
      && t.frame && (s.released ==> t.released)
      && (e !in p.facts ==> e !in t.tracked && (e in t.minHeight <==> e in s.minHeight))
      && (e in p.facts && e !in p.matching ==>
            && (e in t.tracked <==> e in s.tracked) && (e in s.tracked ==> t.tracked[e] == s.tracked[e])
            && (e in t.minHeight <==> e in s.minHeight))
      && (e in p.matching && e !in s.tracked ==>
            && e in t.tracked && t.tracked[e].width == 0.0 && t.tracked[e].height == 0.0
            && IsInView(p, e, t.tracked[e].key) && (e in t.minHeight <==> e in s.minHeight))
      && (e in p.matching && e in s.tracked && LeavesItsView(p, e, s.tracked[e].key) ==>
            && e in t.tracked && t.tracked[e].width == s.tracked[e].width && t.tracked[e].height == 0.0
            && IsInView(p, e, t.tracked[e].key) && e !in t.minHeight
            && (p.facts[e].visible ==> t.released))
      && (e in p.matching && e in s.tracked && !LeavesItsView(p, e, s.tracked[e].key) ==>
            e in t.tracked && t.tracked[e] == s.tracked[e] && (e in t.minHeight <==> e in s.minHeight))
      && (e in t.minHeight ==> t.minHeight[e] == s.minHeight[e])
  {
    if e in p.matching && e in s.tracked {
      assert Drops(s, p, e) <==> LeavesItsView(p, e, s.tracked[e].key);
    }
  }

  /** A mutation callback releases exactly when it drops the floor of a visible element. */
  lemma ReleaseIsSpelledOut(s: State, p: Page)
    requires IsPage(p)
    ensures AfterDiscover(s, p).released
       <==> s.released || exists x :: x in p.matching && x in s.tracked && p.facts[x].visible
                                      && LeavesItsView(p, x, s.tracked[x].key)
  {
    forall x | x in p.matching && x in s.tracked ensures Drops(s, p, x) <==> LeavesItsView(p, x, s.tracked[x].key) {}
  }

  /** The element is in another view than its record's; one in a closing Full view stays in its own. */
  ghost predicate LeavesItsView(p: Page, e: Elem, key: Key)
    requires e in p.facts
  {
    !IsInView(p, e, key) && !(p.facts[e].inFull && p.fullSource == "")
  }

  /** A floor that is released makes the next frame measure every shown element afresh, however many
      mutations and resizes lie between. */
  lemma {:induction false} ReleaseWaits(s: State, events: seq<Event>)
    requires s.released && IsRun(s, events) && forall event :: event in events ==> !event.FrameRuns?
    ensures Run(s, events).released
    decreases |events|
  {
    if events != [] {
      assert events[0] in events;
      assert forall event :: event in events[1..] ==> event in events;
      ReleaseWaits(Step(s, events[0]), events[1..]);
    }
  }

  lemma ReleaseMeasuresAfresh(s: State, p: Page, x: Elem, events: seq<Event>, q: Page, heights: map<Elem, real>,
                              e: Elem)
    requires IsPage(p) && x in p.matching && x in s.tracked && p.facts[x].visible
    requires LeavesItsView(p, x, s.tracked[x].key)
    requires IsRun(AfterDiscover(s, p), events) && forall event :: event in events ==> !event.FrameRuns?
    requires var t := Run(AfterDiscover(s, p), events);
      IsMeasured(t, q, heights) && e in t.tracked && IsVisible(q, e)
    ensures var t := AfterFrame(Run(AfterDiscover(s, p), events), q, heights);
      && t.tracked[e].height == heights[e]
      && (heights[e] > 0.0 ==> e in t.minHeight && t.minHeight[e] == heights[e])
      && (heights[e] == 0.0 ==> e !in t.minHeight)
  {
    DiscoverSpelledOut(s, p, x);
    ReleaseWaits(AfterDiscover(s, p), events);
    FrameMeasures(Run(AfterDiscover(s, p), events), q, heights);
  }

  // ------------------------------------------------------------------ closing and reopening

  /** The page as it stays while tiles are closed and reopened: every element found is in the view of
      its key, unless it is known and its Full view is closed; and everything a frame shows has its
      width and its view. */
  predicate IsSteady(s: State, event: Event, widths: map<Elem, real>, keys: map<Elem, Key>)
    requires IsPossible(s, event)
  {
    match event
    case MutationsSeen(p) =>
      forall x :: x in p.matching ==>
        && x in keys
        && (Configuration(p, x) == keys[x] || (x in s.tracked && InFull(p, x) && p.fullSource == ""))
    case FrameRuns(p, _) =>
      forall x :: x in s.tracked && IsVisible(p, x) ==>
        x in keys && Configuration(p, x) == keys[x] && x in widths && p.facts[x].width == widths[x]
    case Resized => true
  }

  predicate StaysSteady(s: State, events: seq<Event>, widths: map<Elem, real>, keys: map<Elem, Key>)
    requires IsRun(s, events)
    decreases |events|
  {
    events == []
    || (IsSteady(s, events[0], widths, keys) && StaysSteady(Step(s, events[0]), events[1..], widths, keys))
  }

  /** Every record agrees with the steady page, and nothing waits to be reset. */
  predicate Agrees(s: State, widths: map<Elem, real>, keys: map<Elem, Key>) {
    && !s.released
    && forall x :: x in s.tracked ==>
         && x in keys && s.tracked[x].key == keys[x]
         && (s.tracked[x].width == 0.0 || (x in widths && s.tracked[x].width == widths[x]))
  }

  predicate StaysConnected(events: seq<Event>, e: Elem) {
    forall k :: 0 <= k < |events| && events[k].MutationsSeen? ==> e in events[k].page.facts
  }

  lemma SteadyDropsNothing(s: State, p: Page, widths: map<Elem, real>, keys: map<Elem, Key>)
    requires IsPage(p) && Agrees(s, widths, keys) && IsSteady(s, MutationsSeen(p), widths, keys)
    ensures forall x :: !Drops(s, p, x)
    ensures Agrees(AfterDiscover(s, p), widths, keys)
  {
    forall x ensures !Drops(s, p, x) {}
    var t := AfterDiscover(s, p);
    forall x | x in t.tracked
      ensures x in keys && t.tracked[x].key == keys[x]
      ensures t.tracked[x].width == 0.0 || (x in widths && t.tracked[x].width == widths[x])
    {
      assert x in s.tracked ==> t.tracked[x] == s.tracked[x];
    }
  }

  lemma SteadyNeverResets(s: State, p: Page, heights: map<Elem, real>, widths: map<Elem, real>, keys: map<Elem, Key>)
    requires IsPossible(s, FrameRuns(p, heights)) && Agrees(s, widths, keys)
    requires IsSteady(s, FrameRuns(p, heights), widths, keys)
    ensures !Resets(s, p)
    ensures Agrees(AfterFrame(s, p, heights), widths, keys)
  {
    var t := AfterFrame(s, p, heights);
    forall x | x in t.tracked
      ensures x in keys && t.tracked[x].key == keys[x]
      ensures t.tracked[x].width == 0.0 || (x in widths && t.tracked[x].width == widths[x])
    {
      assert x in s.tracked;
    }
  }

  lemma {:induction false} SteadyIsUndisturbed(s: State, events: seq<Event>, e: Elem, widths: map<Elem, real>,
                                               keys: map<Elem, Key>)
    requires IsRun(s, events) && Agrees(s, widths, keys) && StaysSteady(s, events, widths, keys)
    requires StaysConnected(events, e)
    ensures Undisturbed(s, events, e)
    decreases |events|
  {
    if events != [] {
      match events[0] {
        case MutationsSeen(p) => SteadyDropsNothing(s, p, widths, keys);
        case FrameRuns(p, heights) => SteadyNeverResets(s, p, heights, widths, keys);
        case Resized =>
      }
      SteadyIsUndisturbed(Step(s, events[0]), events[1..], e, widths, keys);
    }
  }

  /** Closing and reopening the same tile at unchanged widths keeps its floor, however many callbacks
      lie between and through every frame that shows the tile again: the floor can only have been
      raised, to a height measured on the way. */
  lemma FloorSurvivesClosing(s: State, events: seq<Event>, e: Elem, widths: map<Elem, real>, keys: map<Elem, Key>)
    requires IsRun(s, events) && Agrees(s, widths, keys) && StaysSteady(s, events, widths, keys)
    requires e in s.tracked && MirrorsAt(s, e) && StaysConnected(events, e)
    ensures var t := Run(s, events);
      && e in t.tracked && MirrorsAt(t, e) && t.tracked[e].key == s.tracked[e].key
      && t.tracked[e].height >= s.tracked[e].height
      && (t.tracked[e].height == s.tracked[e].height
          || exists k :: 0 <= k < |events| && Measures(events[k], e, t.tracked[e].height))
  {
    SteadyIsUndisturbed(s, events, e, widths, keys);
    FloorIsGreatestSinceReset(s, events, e);
  }

  /** A Full view with one element, 1, open and 300 wide, or closed and hidden. */
  function FullView(source: string, tile: string): Page {
    Page(map[1 := Facts(source != "", true, None, "ready", if source != "" then 300.0 else 0.0)], {1}, source, tile)
  }

  /** Element 1 alone is tracked, 300 wide and h high in this view, and nothing waits to be reset. */
  predicate HasFloor(s: State, key: Key, h: real) {
    !s.released && s.tracked == map[1 := Record(300.0, h, key)]
  }

  lemma ClosingKeeps(s: State, key: Key, h: real)
    requires HasFloor(s, key, h)
    ensures var t := AfterDiscover(s, FullView("", "")); t.frame && HasFloor(t, key, h)
  {
    assert !Drops(s, FullView("", ""), 1);
  }

  lemma HiddenFrameKeeps(s: State, key: Key, h: real)
    requires HasFloor(s, key, h)
    ensures IsMeasured(s, FullView("", ""), map[]) && HasFloor(AfterFrame(s, FullView("", ""), map[]), key, h)
  {
    assert Shown(s, FullView("", "")) == {};
  }

  lemma ReopeningKeeps(s: State, source: string, tile: string, h: real)
    requires source != "" && HasFloor(s, FullKey(source, tile, "ready"), h)
    ensures var t := AfterDiscover(s, FullView(source, tile)); t.frame && HasFloor(t, FullKey(source, tile, "ready"), h)
  {
    assert !Drops(s, FullView(source, tile), 1);
  }

  lemma ShownFrameRaises(s: State, source: string, tile: string, h: real, height: real)
    requires source != "" && HasFloor(s, FullKey(source, tile, "ready"), h) && height >= 0.0
    ensures var p := FullView(source, tile);
      && IsMeasured(s, p, map[1 := height])
      && HasFloor(AfterFrame(s, p, map[1 := height]), FullKey(source, tile, "ready"), if height > h then height else h)
  {
    var p, heights := FullView(source, tile), map[1 := height];
    assert Shown(s, p) == {1};
    assert !Resets(s, p);
    var c := Cleared(s, p, false, {1});
    assert c.tracked == s.tracked;
    assert Risers(c, heights, {1}) == if height > h then {1} else {};
  }

  /** For instance: a tile with a floor is closed, a frame runs, the tile is reopened, and a frame
      measures it. Its floor is then the greater of the two heights. */
  lemma ReopenedTileKeepsItsFloor(s: State, source: string, tile: string, h: real, height: real)
    requires source != "" && HasFloor(s, FullKey(source, tile, "ready"), h) && height >= 0.0
    ensures var full, closed := FullView(source, tile), FullView("", "");
      var events := [MutationsSeen(closed), FrameRuns(closed, map[]), MutationsSeen(full),
                     FrameRuns(full, map[1 := height])];
      IsRun(s, events) && HasFloor(Run(s, events), FullKey(source, tile, "ready"), if height > h then height else h)
  {
    var key := FullKey(source, tile, "ready");
    var full, closed := FullView(source, tile), FullView("", "");
    ClosingKeeps(s, key, h);
    var a := AfterDiscover(s, closed);
    HiddenFrameKeeps(a, key, h);
    var b := AfterFrame(a, closed, map[]);
    ReopeningKeeps(b, source, tile, h);
    var c := AfterDiscover(b, full);
    ShownFrameRaises(c, source, tile, h, height);
    RunOfFour(s, MutationsSeen(closed), FrameRuns(closed, map[]), MutationsSeen(full),
              FrameRuns(full, map[1 := height]));
  }

  /** Otherwise: one visible element that changed its width by more than a pixel, or its view, makes
      the next frame measure every visible element afresh, and from there on the floor of each is the
      greatest height measured since that frame, whatever it was before. */
  lemma ChangeMeasuresAfresh(s: State, p: Page, heights: map<Elem, real>, changed: Elem, e: Elem, events: seq<Event>)
    requires IsPossible(s, FrameRuns(p, heights)) && HasChanged(s.tracked, p, changed)
    requires e in s.tracked && IsVisible(p, e)
    requires IsRun(AfterFrame(s, p, heights), events) && Undisturbed(AfterFrame(s, p, heights), events, e)
    ensures var t := Run(AfterFrame(s, p, heights), events);
      && e in t.tracked && t.tracked[e].key == Configuration(p, e) && t.tracked[e].height >= heights[e]
      && (forall k, h :: 0 <= k < |events| && Measures(events[k], e, h) ==> t.tracked[e].height >= h)
      && (t.tracked[e].height == heights[e]
          || exists k :: 0 <= k < |events| && Measures(events[k], e, t.tracked[e].height))
  {
    ResetsIsSpelledOut(s, p);
    ResetMeasuresAgain(s, p, heights, e);
    FloorIsGreatestSinceReset(AfterFrame(s, p, heights), events, e);
  }
}
