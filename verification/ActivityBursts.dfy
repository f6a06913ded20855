/** The activity feed's grouping: runs of similar events, each within five minutes of the one before. */
module ActivityBursts {
  import opened JsText

  datatype Event = Event(
    id: string, actorId: Option<string>, action: string, targetType: Option<string>, createTime: string)

  datatype Group = Single(event: Event) | Collapsed(events: seq<Event>)

  const BURST_WINDOW_MS := 5 * 60 * 1000

  /** `millis` is `toMillis`, the parsed time or 0. */
  predicate SameBurst(millis: string -> int, prev: Event, next: Event) {
    && prev.actorId == next.actorId && prev.action == next.action && prev.targetType == next.targetType
    && -BURST_WINDOW_MS <= millis(prev.createTime) - millis(next.createTime) <= BURST_WINDOW_MS
  }

  function Events(g: Group): seq<Event> {
    if g.Single? then [g.event] else g.events
  }

  function Flatten(groups: seq<Group>): seq<Event> {
    if groups == [] then [] else Flatten(groups[..|groups| - 1]) + Events(groups[|groups| - 1])
  }

  /** A non-empty run of the relation, tagged `Single` exactly when it has one event. */
  predicate IsRun(millis: string -> int, g: Group) {
    && Events(g) != [] && (g.Single? <==> |Events(g)| == 1)
    && (forall k :: 0 < k < |Events(g)| ==> SameBurst(millis, Events(g)[k - 1], Events(g)[k]))
  }

  predicate Broken(millis: string -> int, g: Group, h: Group) {
    Events(g) != [] && Events(h) != [] && !SameBurst(millis, Events(g)[|Events(g)| - 1], Events(h)[0])
  }

  /** The groups are the events, cut into runs exactly where the relation fails. */
  predicate IsPartition(millis: string -> int, groups: seq<Group>, events: seq<Event>) {
    Flatten(groups) == events && AllRuns(millis, groups) && AllBroken(millis, groups)
  }

  predicate AllRuns(millis: string -> int, groups: seq<Group>) {
    forall k :: 0 <= k < |groups| ==> IsRun(millis, groups[k])
  }

  predicate AllBroken(millis: string -> int, groups: seq<Group>) {
    forall k :: 0 < k < |groups| ==> Broken(millis, groups[k - 1], groups[k])
  }

  function Tagged(buffer: seq<Event>): Group
    requires buffer != []
  {
    if |buffer| == 1 then Single(buffer[0]) else Collapsed(buffer)
  }

  /** The groups of a prefix, with its last event put into the last group or into one of its own. */
  function Bursts(millis: string -> int, events: seq<Event>): (groups: seq<Group>)
    ensures groups == [] <==> events == []
    decreases |events|
  {
    if events == [] then []
    else
      var n := |events|;
      var before, next := Bursts(millis, events[..n - 1]), events[n - 1];
      if n > 1 && SameBurst(millis, events[n - 2], next) then
        before[..|before| - 1] + [Tagged(Events(before[|before| - 1]) + [next])]
      else before + [Single(next)]
  }

  method GroupActivity(millis: string -> int, events: seq<Event>) returns (groups: seq<Group>)
    ensures groups == Bursts(millis, events)
  {
    hide SameBurst;
    groups := [];
    if |events| == 0 {
      return;
    }
    var buffer := [events[0]];
    assert events[..1] == [events[0]] && events[..1][..0] == [];
    for i := 1 to |events|
      invariant buffer != [] && buffer[|buffer| - 1] == events[i - 1]
      invariant groups + [Tagged(buffer)] == Bursts(millis, events[..i])
    {
      var prev, next := buffer[|buffer| - 1], events[i];
      assert events[..i + 1][..i] == events[..i];
      assert (groups + [Tagged(buffer)])[..|groups|] == groups && Events(Tagged(buffer)) == buffer;
      if SameBurst(millis, prev, next) {
        buffer := buffer + [next];
      } else {
        groups := groups + [Tagged(buffer)];
        buffer := [next];
      }
    }
    assert events[..|events|] == events;
    groups := groups + [Tagged(buffer)];
  }

  lemma FlattenSnoc(groups: seq<Group>, g: Group)
    ensures Flatten(groups + [g]) == Flatten(groups) + Events(g)
  {
    assert (groups + [g])[..|groups|] == groups;
  }

  lemma RunsSnoc(millis: string -> int, groups: seq<Group>, y: Group)
    ensures AllRuns(millis, groups + [y]) <==> AllRuns(millis, groups) && IsRun(millis, y)
  {
    hide IsRun;
    var b := groups + [y];
    assert b[|groups|] == y;
    assert forall k :: 0 <= k < |groups| ==> b[k] == groups[k];
  }

  lemma BrokenSnoc(millis: string -> int, groups: seq<Group>, y: Group)
    ensures AllBroken(millis, groups + [y]) <==>
      AllBroken(millis, groups) && (groups != [] ==> Broken(millis, groups[|groups| - 1], y))
  {
    hide Broken;
    var b := groups + [y];
    if AllBroken(millis, b) {
      forall k | 0 < k < |groups| ensures Broken(millis, groups[k - 1], groups[k]) {
        assert Broken(millis, b[k - 1], b[k]);
      }
      assert groups != [] ==> Broken(millis, b[|groups| - 1], b[|groups|]);
    }
    if AllBroken(millis, groups) && (groups != [] ==> Broken(millis, groups[|groups| - 1], y)) {
      forall k | 0 < k < |b| ensures Broken(millis, b[k - 1], b[k]) {
        assert k < |groups| ==> Broken(millis, groups[k - 1], groups[k]);
      }
    }
  }

  /** A partition stays one when its last group is exchanged for another run with the same first event. */
  lemma ExchangeLast(millis: string -> int, groups: seq<Group>, x: Group, y: Group)
    requires IsPartition(millis, groups + [x], Flatten(groups + [x]))
    requires IsRun(millis, y) && Events(x) != [] && Events(y) != [] && Events(y)[0] == Events(x)[0]
    ensures IsPartition(millis, groups + [y], Flatten(groups) + Events(y))
  {
    hide SameBurst, IsRun, Flatten, AllRuns, AllBroken;
    FlattenSnoc(groups, y);
    RunsSnoc(millis, groups, x);
    RunsSnoc(millis, groups, y);
    BrokenSnoc(millis, groups, x);
    BrokenSnoc(millis, groups, y);
  }

  lemma AppendGroup(millis: string -> int, groups: seq<Group>, y: Group)
    requires IsPartition(millis, groups, Flatten(groups)) && IsRun(millis, y) && Events(y) != []
    requires groups != [] ==> Broken(millis, groups[|groups| - 1], y)
    ensures IsPartition(millis, groups + [y], Flatten(groups) + Events(y))
  {
    hide IsRun, Broken, Flatten, AllRuns, AllBroken;
    FlattenSnoc(groups, y);
    RunsSnoc(millis, groups, y);
    BrokenSnoc(millis, groups, y);
  }

  lemma GrowRun(millis: string -> int, g: Group, next: Event)
    requires IsRun(millis, g) && SameBurst(millis, Events(g)[|Events(g)| - 1], next)
    ensures IsRun(millis, Tagged(Events(g) + [next])) && Events(Tagged(Events(g) + [next])) == Events(g) + [next]
  {
    hide SameBurst;
  }

  lemma GrowLastGroup(millis: string -> int, groups: seq<Group>, events: seq<Event>, next: Event)
    requires IsPartition(millis, groups, events) && groups != [] && events != []
    requires SameBurst(millis, events[|events| - 1], next)
    ensures var last := Tagged(Events(groups[|groups| - 1]) + [next]);
      IsPartition(millis, groups[..|groups| - 1] + [last], events + [next])
  {
    hide SameBurst, IsRun, IsPartition, Flatten, Broken;
    var init, last := groups[..|groups| - 1], groups[|groups| - 1];
    LastEvent(millis, groups, events);
    FlattenOf(millis, groups, events);
    GrowRun(millis, last, next);
    assert groups == init + [last];
    ExchangeLast(millis, init, last, Tagged(Events(last) + [next]));
    assert Flatten(init) + (Events(last) + [next]) == events + [next];
  }

  lemma AppendSingle(millis: string -> int, groups: seq<Group>, events: seq<Event>, next: Event)
    requires IsPartition(millis, groups, events) && (groups != [] ==> events != [])
    requires groups != [] ==> !SameBurst(millis, events[|events| - 1], next)
    ensures IsPartition(millis, groups + [Single(next)], events + [next])
  {
    hide SameBurst, IsRun, Broken;
    SingleIsRun(millis, next);
    if groups != [] { BreakAfter(millis, groups, events, next); }
    AppendGroup(millis, groups, Single(next));
  }

  /** What the feed shows is the event list cut into maximal bursts: nothing lost, moved, merged or split. */
  lemma {:induction false} BurstsArePartition(millis: string -> int, events: seq<Event>)
    ensures IsPartition(millis, Bursts(millis, events), events)
    decreases |events|
  {
    hide SameBurst, IsPartition;
    NoGroups(millis);
    if events != [] {
      var n := |events|;
      var init, next := events[..n - 1], events[n - 1];
      BurstsArePartition(millis, init);
      assert events == init + [next];
      if n > 1 && SameBurst(millis, events[n - 2], next) {
        GrowLastGroup(millis, Bursts(millis, init), init, next);
      } else {
        AppendSingle(millis, Bursts(millis, init), init, next);
      }
    }
  }

  lemma NoGroups(millis: string -> int)
    ensures IsPartition(millis, [], []) && Flatten([]) == []
  {
  }

  lemma FlattenOf(millis: string -> int, groups: seq<Group>, events: seq<Event>)
    requires IsPartition(millis, groups, events) && groups != []
    ensures Flatten(groups) == events
    ensures var g := groups[|groups| - 1]; Flatten(groups[..|groups| - 1]) + Events(g) == events
  {
  }

  lemma BreakAfter(millis: string -> int, groups: seq<Group>, events: seq<Event>, next: Event)
    requires IsPartition(millis, groups, events) && groups != [] && events != []
    requires !SameBurst(millis, events[|events| - 1], next)
    ensures Broken(millis, groups[|groups| - 1], Single(next))
  {
    LastEvent(millis, groups, events);
  }

  lemma SingleIsRun(millis: string -> int, e: Event)
    ensures IsRun(millis, Single(e))
  {
  }

  lemma LastEvent(millis: string -> int, groups: seq<Group>, events: seq<Event>)
    requires IsPartition(millis, groups, events) && groups != []
    ensures var g := groups[|groups| - 1];
      && IsRun(millis, g) && Events(g) != [] && |Events(g)| <= |events|
      && Events(g)[|Events(g)| - 1] == events[|events| - 1]
      && Events(g) == events[|events| - |Events(g)|..]
      && Flatten(groups[..|groups| - 1]) == events[..|events| - |Events(g)|]
  {
    assert IsRun(millis, groups[|groups| - 1]);
  }

  lemma DropLastGroup(millis: string -> int, groups: seq<Group>, events: seq<Event>)
    requires IsPartition(millis, groups, events) && groups != []
    ensures IsPartition(millis, groups[..|groups| - 1], Flatten(groups[..|groups| - 1]))
  {
    hide IsRun, Flatten, Broken, AllRuns, AllBroken;
    var init, last := groups[..|groups| - 1], groups[|groups| - 1];
    assert groups == init + [last];
    RunsSnoc(millis, init, last);
    BrokenSnoc(millis, init, last);
  }

  lemma SameRun(millis: string -> int, x: Group, y: Group)
    requires IsRun(millis, x) && IsRun(millis, y) && Events(x) == Events(y)
    requires x.Collapsed? <==> y.Collapsed?
    ensures x == y
  {
  }

  lemma LastGroupsAgree(millis: string -> int, a: seq<Group>, b: seq<Group>, events: seq<Event>)
    requires IsPartition(millis, a, events) && IsPartition(millis, b, events) && a != [] && b != []
    ensures a[|a| - 1] == b[|b| - 1]
    ensures Flatten(a[..|a| - 1]) == Flatten(b[..|b| - 1])
  {
    hide IsPartition, Flatten, SameBurst, Broken;
    LastRunIsMaximal(millis, a, b, events);
    LastRunIsMaximal(millis, b, a, events);
    LastEvent(millis, a, events);
    LastEvent(millis, b, events);
    SameRun(millis, a[|a| - 1], b[|b| - 1]);
  }

  /** The partition is unique, so the feed's groups do not depend on how they are computed. */
  lemma {:induction false} PartitionIsUnique(millis: string -> int, a: seq<Group>, b: seq<Group>, events: seq<Event>)
    requires IsPartition(millis, a, events) && IsPartition(millis, b, events)
    ensures a == b
    decreases |a|
  {
    hide IsPartition, Flatten;
    if a == [] || b == [] {
      NoGroupsNoEvents(millis, a, events);
      NoGroupsNoEvents(millis, b, events);
    } else {
      LastGroupsAgree(millis, a, b, events);
      DropLastGroup(millis, a, events);
      DropLastGroup(millis, b, events);
      PartitionIsUnique(millis, a[..|a| - 1], b[..|b| - 1], Flatten(a[..|a| - 1]));
      assert a == a[..|a| - 1] + [a[|a| - 1]] && b == b[..|b| - 1] + [b[|b| - 1]];
    }
  }

  lemma NoGroupsNoEvents(millis: string -> int, groups: seq<Group>, events: seq<Event>)
    requires IsPartition(millis, groups, events)
    ensures groups == [] <==> events == []
  {
    if groups != [] { assert IsRun(millis, groups[|groups| - 1]); }
  }

  /** No partition's last run is longer than another's: the break before it would be inside. */
  lemma LastRunIsMaximal(millis: string -> int, a: seq<Group>, b: seq<Group>, events: seq<Event>)
    requires IsPartition(millis, a, events) && IsPartition(millis, b, events) && a != [] && b != []
    ensures |Events(b[|b| - 1])| <= |Events(a[|a| - 1])|
  {
    hide SameBurst;
    var x, y := Events(a[|a| - 1]), Events(b[|b| - 1]);
    LastEvent(millis, a, events);
    LastEvent(millis, b, events);
    if |y| > |x| {
      InsideLast(millis, b, events, |y| - |x|);
      BreakBeforeLast(millis, a, events);
    }
  }

  lemma InsideLast(millis: string -> int, b: seq<Group>, events: seq<Event>, k: nat)
    requires IsPartition(millis, b, events) && b != [] && 0 < k < |Events(b[|b| - 1])|
    ensures var start := |events| - |Events(b[|b| - 1])| + k;
      0 < start < |events| && SameBurst(millis, events[start - 1], events[start])
  {
    hide SameBurst;
    LastEvent(millis, b, events);
    var y := Events(b[|b| - 1]);
    assert SameBurst(millis, y[k - 1], y[k]);
    assert y == events[|events| - |y|..];
  }

  lemma BreakBeforeLast(millis: string -> int, a: seq<Group>, events: seq<Event>)
    requires IsPartition(millis, a, events) && a != [] && |Events(a[|a| - 1])| < |events|
    ensures var start := |events| - |Events(a[|a| - 1])|;
      0 < start < |events| && !SameBurst(millis, events[start - 1], events[start])
  {
    hide SameBurst;
    LastEvent(millis, a, events);
    DropLastGroup(millis, a, events);
    var before := a[..|a| - 1];
    NoGroupsNoEvents(millis, before, Flatten(before));
    LastEvent(millis, before, Flatten(before));
    assert Broken(millis, a[|a| - 2], a[|a| - 1]);
  }

  /** The feed's groups are the only such cut. */
  lemma BurstsAreThePartition(millis: string -> int, groups: seq<Group>, events: seq<Event>)
    ensures IsPartition(millis, groups, events) <==> groups == Bursts(millis, events)
  {
    hide IsPartition, Bursts;
    BurstsArePartition(millis, events);
    if IsPartition(millis, groups, events) { PartitionIsUnique(millis, groups, Bursts(millis, events), events); }
  }

  // ---- what a group has in common ---------------------------------------------------------

  /** A group's events have one actor, one action and one target type, and neighbours are at most five minutes apart. */
  lemma GroupsAreAlike(millis: string -> int, events: seq<Event>, g: Group)
    requires g in Bursts(millis, events)
    ensures forall j, k :: 0 <= j < |Events(g)| && 0 <= k < |Events(g)| ==>
      && Events(g)[j].actorId == Events(g)[k].actorId && Events(g)[j].action == Events(g)[k].action
      && Events(g)[j].targetType == Events(g)[k].targetType
    ensures forall k :: 0 < k < |Events(g)| ==>
      var gap := millis(Events(g)[k - 1].createTime) - millis(Events(g)[k].createTime); -300000 <= gap <= 300000
  {
    BurstsArePartition(millis, events);
    hide Bursts, Flatten, Broken, SameBurst;
    var i :| 0 <= i < |Bursts(millis, events)| && Bursts(millis, events)[i] == g;
    assert IsRun(millis, g);
    RunIsAlike(millis, Events(g));
  }

  lemma {:induction false} RunIsAlike(millis: string -> int, run: seq<Event>)
    requires forall k :: 0 < k < |run| ==> SameBurst(millis, run[k - 1], run[k])
    ensures forall j :: 0 <= j < |run| ==>
      run[j].actorId == run[0].actorId && run[j].action == run[0].action && run[j].targetType == run[0].targetType
    ensures forall k :: 0 < k < |run| ==>
      -300000 <= millis(run[k - 1].createTime) - millis(run[k].createTime) <= 300000
  {
    if |run| > 1 {
      var n := |run| - 1;
      RunIsAlike(millis, run[..n]);
      assert forall j :: 0 <= j < n ==> run[..n][j] == run[j];
      assert SameBurst(millis, run[n - 1], run[n]);
    }
  }

  /** And neighbours that agree in all this are never split. */
  lemma AlikeAreGrouped(millis: string -> int, events: seq<Event>, k: nat)
    requires k + 1 < |Bursts(millis, events)|
    ensures var a, b := Events(Bursts(millis, events)[k]), Events(Bursts(millis, events)[k + 1]);
      && a != [] && b != []
      && var x, y := a[|a| - 1], b[0];
         || x.actorId != y.actorId || x.action != y.action || x.targetType != y.targetType
         || millis(x.createTime) - millis(y.createTime) > 300000 || millis(y.createTime) - millis(x.createTime) > 300000
  {
    BurstsArePartition(millis, events);
    hide Bursts, Flatten;
    assert Broken(millis, Bursts(millis, events)[k], Bursts(millis, events)[k + 1]);
  }
}
