/** Deployment conditions of a KfConfig and the plugin state machine built on them
    (pkg/kfconfig/types.go:209-217, 318-405). */
module Conditions {
  import opened Wrappers

  type Time = int

  datatype Status = IsTrue | IsFalse | IsUnknown

  datatype Condition = Condition(kind: string, status: Status, lastUpdate: Time, lastTransition: Time,
                                 reason: string, message: string)

  function SucceededType(plugin: string): string { plugin + "Succeeded" }
  function FailedType(plugin: string): string { plugin + "Failed" }

  /** The first condition of the given type. */
  function Find(cs: seq<Condition>, kind: string): Option<Condition> {
    if cs == [] then None
    else if cs[0].kind == kind then Some(cs[0])
    else Find(cs[1..], kind)
  }

  /** Replaces the first condition of the type, or appends; an unchanged status keeps its transition time. */
  function Set(cs: seq<Condition>, kind: string, status: Status, now: Time, reason: string,
               message: string): seq<Condition> {
    if cs == [] then [Condition(kind, status, now, now, reason, message)]
    else if cs[0].kind == kind then
      [Condition(kind, status, now, if cs[0].status == status then cs[0].lastTransition else now, reason, message)]
      + cs[1..]
    else [cs[0]] + Set(cs[1..], kind, status, now, reason, message)
  }

  lemma {:induction false} SetAt(cs: seq<Condition>, i: nat, kind: string, status: Status, now: Time, reason: string,
                                 message: string)
    requires i < |cs| && cs[i].kind == kind && forall j | 0 <= j < i :: cs[j].kind != kind
    ensures Set(cs, kind, status, now, reason, message)
         == cs[i := Condition(kind, status, now, if cs[i].status == status then cs[i].lastTransition else now,
                              reason, message)]
  {
    if i > 0 {
      SetAt(cs[1..], i - 1, kind, status, now, reason, message);
    }
  }

  lemma {:induction false} SetNew(cs: seq<Condition>, kind: string, status: Status, now: Time, reason: string,
                                  message: string)
    requires forall j | 0 <= j < |cs| :: cs[j].kind != kind
    ensures Set(cs, kind, status, now, reason, message) == cs + [Condition(kind, status, now, now, reason, message)]
  {
    if cs != [] {
      SetNew(cs[1..], kind, status, now, reason, message);
      assert cs == [cs[0]] + cs[1..];
    }
  }

  predicate UniqueTypes(cs: seq<Condition>) {
    forall i, j | 0 <= i < j < |cs| :: cs[i].kind != cs[j].kind
  }

  function Types(cs: seq<Condition>): (ts: seq<string>)
    ensures |ts| == |cs| && forall i | 0 <= i < |cs| :: ts[i] == cs[i].kind
  {
    seq(|cs|, i requires 0 <= i < |cs| => cs[i].kind)
  }

  lemma {:induction false} FindInTypes(cs: seq<Condition>, kind: string)
    ensures Find(cs, kind).Some? <==> kind in Types(cs)
  {
    if cs != [] {
      FindInTypes(cs[1..], kind);
      assert Types(cs) == [cs[0].kind] + Types(cs[1..]);
    }
  }

  /** Setting a condition determines what is found under its type and nothing else. */
  lemma {:induction false} FindAfterSet(cs: seq<Condition>, kind: string, status: Status, now: Time, reason: string,
                                        message: string, other: string)
    ensures Find(Set(cs, kind, status, now, reason, message), other)
         == if other != kind then Find(cs, other)
            else Some(Condition(kind, status, now,
                                if Find(cs, kind).Some? && Find(cs, kind).value.status == status
                                then Find(cs, kind).value.lastTransition else now,
                                reason, message))
  {
    if cs != [] && cs[0].kind != kind {
      FindAfterSet(cs[1..], kind, status, now, reason, message, other);
    }
  }

  /** Setting keeps the order of the types and appends a new one at the end. */
  lemma {:induction false} TypesAfterSet(cs: seq<Condition>, kind: string, status: Status, now: Time, reason: string,
                                         message: string)
    ensures Types(Set(cs, kind, status, now, reason, message))
         == if Find(cs, kind).Some? then Types(cs) else Types(cs) + [kind]
  {
    if cs != [] {
      TypesAfterSet(cs[1..], kind, status, now, reason, message);
      assert Types(cs) == [cs[0].kind] + Types(cs[1..]);
      var after := Set(cs, kind, status, now, reason, message);
      assert Types(after) == [after[0].kind] + Types(after[1..]);
    }
  }

  lemma UniqueAfterSet(cs: seq<Condition>, kind: string, status: Status, now: Time, reason: string, message: string)
    requires UniqueTypes(cs)
    ensures UniqueTypes(Set(cs, kind, status, now, reason, message))
  {
    TypesAfterSet(cs, kind, status, now, reason, message);
    FindInTypes(cs, kind);
    var after := Set(cs, kind, status, now, reason, message);
    forall i, j | 0 <= i < j < |after| ensures after[i].kind != after[j].kind {
      assert after[i].kind == Types(after)[i] && after[j].kind == Types(after)[j];
    }
  }

  /** The condition types of two plugin kinds never meet, except for equal kinds. */
  lemma TypesAreInjective(a: string, b: string)
    ensures SucceededType(a) != FailedType(b)
    ensures SucceededType(a) == SucceededType(b) ==> a == b
    ensures FailedType(a) == FailedType(b) ==> a == b
  {
    var x, y := SucceededType(a), FailedType(b);
    assert x[|x| - 3] == 'd' && y[|y| - 3] == 'l';
    if SucceededType(a) == SucceededType(b) {
      assert a == SucceededType(a)[..|a|] == SucceededType(b)[..|b|] == b;
    }
    if FailedType(a) == FailedType(b) {
      assert a == FailedType(a)[..|a|] == FailedType(b)[..|b|] == b;
    }
  }

  predicate IsFinished(cs: seq<Condition>, plugin: string) {
    var c := Find(cs, SucceededType(plugin));
    c.Some? && c.value.status.IsTrue?
  }

  predicate IsFailed(cs: seq<Condition>, plugin: string) {
    var c := Find(cs, FailedType(plugin));
    c.Some? && c.value.status.IsTrue?
  }

  const RESET_BY_FINISH := "Reset to false as the plugin is set to be finished."
  const RESET_BY_FAIL := "Reset to false as the plugin is set to be failed."

  /** A call of SetPluginFinished or SetPluginFailed; `resetAt` and `setAt` are the two readings of the clock. */
  datatype Event = Event(plugin: string, finished: bool, resetAt: Time, setAt: Time, message: string) {
    function Type(): string {
      if finished then SucceededType(plugin) else FailedType(plugin)
    }
    function OtherType(): string {
      if finished then FailedType(plugin) else SucceededType(plugin)
    }
  }

  function Apply(cs: seq<Condition>, e: Event): seq<Condition> {
    var cleared := if Find(cs, e.OtherType()).None? then cs
                   else Set(cs, e.OtherType(), IsFalse, e.resetAt, "",
                            if e.finished then RESET_BY_FINISH else RESET_BY_FAIL);
    Set(cleared, e.Type(), IsTrue, e.setAt, "", e.message)
  }

  function Replay(h: seq<Event>): seq<Condition> {
    if h == [] then [] else Apply(Replay(h[..|h| - 1]), h[|h| - 1])
  }

  // ----- what a history says, independently of the conditions -----

  /** h[i] is the last call for the plugin. */
  ghost predicate IsLast(h: seq<Event>, plugin: string, i: int) {
    && 0 <= i < |h| && h[i].plugin == plugin
    && forall j | i < j < |h| :: h[j].plugin != plugin
  }

  /** h[i] is the first call of the plugin's current unbroken run of equal calls. */
  ghost predicate IsRunStart(h: seq<Event>, plugin: string, i: int) {
    && 0 <= i < |h| && h[i].plugin == plugin
    && (forall j | i <= j < |h| && h[j].plugin == plugin :: h[j].finished == h[i].finished)
    && (forall j | 0 <= j < i && h[j].plugin == plugin && (forall m | j < m < i :: h[m].plugin != plugin) ::
          h[j].finished != h[i].finished)
  }

  /** Start of the current run, or -1. */
  function RunStart(h: seq<Event>, plugin: string): (r: int)
    ensures r == -1 || (0 <= r < |h| && h[r].plugin == plugin)
  {
    if h == [] then -1
    else
      var n := |h| - 1;
      var before := RunStart(h[..n], plugin);
      if h[n].plugin != plugin then before
      else if before >= 0 && h[before].finished == h[n].finished then before
      else n
  }

  lemma {:induction false} RunStartIs(h: seq<Event>, plugin: string)
    ensures var r := RunStart(h, plugin);
            if r >= 0 then IsRunStart(h, plugin, r) else forall j | 0 <= j < |h| :: h[j].plugin != plugin
  {
    if h != [] {
      var n := |h| - 1;
      var g := h[..n];
      RunStartIs(g, plugin);
      var before := RunStart(g, plugin);
      assert h == g + [h[n]];
      if before >= 0 {
        if h[n].plugin == plugin && h[before].finished != h[n].finished {
          RunTurns(g, plugin, before, h[n]);
        } else {
          RunContinues(g, plugin, before, h[n]);
        }
      }
    }
  }

  lemma RunContinues(g: seq<Event>, plugin: string, before: int, e: Event)
    requires IsRunStart(g, plugin, before) && (e.plugin == plugin ==> e.finished == g[before].finished)
    ensures IsRunStart(g + [e], plugin, before)
  {
    var h := g + [e];
    assert forall m | 0 <= m < |g| :: h[m] == g[m];
  }

  /** A call that contradicts the current run starts a new one. */
  lemma RunTurns(g: seq<Event>, plugin: string, before: int, e: Event)
    requires IsRunStart(g, plugin, before) && e.plugin == plugin && e.finished != g[before].finished
    ensures IsRunStart(g + [e], plugin, |g|)
  {
    var h := g + [e];
    assert h[before] == g[before];
    forall j | 0 <= j < |g| && h[j].plugin == plugin && (forall m | j < m < |g| :: h[m].plugin != plugin)
      ensures h[j].finished != e.finished
    {
      if before <= j {
        assert g[j].finished == g[before].finished;
      }
    }
  }

  /** The latest call of the plugin before position `end`. */
  lemma LatestBefore(h: seq<Event>, plugin: string, first: int, end: int) returns (m: int)
    requires 0 <= first < end <= |h| && h[first].plugin == plugin
    ensures first <= m < end && h[m].plugin == plugin && forall k | m < k < end :: h[k].plugin != plugin
  {
    m := end - 1;
    while h[m].plugin != plugin
      invariant first <= m < end
      invariant forall k | m < k < end :: h[k].plugin != plugin
      decreases m
    {
      m := m - 1;
    }
  }

  lemma LaterRunStart(h: seq<Event>, plugin: string, i: int, j: int)
    requires IsRunStart(h, plugin, i) && i < j < |h| && h[j].plugin == plugin
    ensures !IsRunStart(h, plugin, j)
  {
    var m := LatestBefore(h, plugin, i, j);
    assert h[m].finished == h[i].finished == h[j].finished;
  }

  lemma RunStartIsUnique(h: seq<Event>, plugin: string, i: int, j: int)
    requires IsRunStart(h, plugin, i) && IsRunStart(h, plugin, j)
    ensures i == j
  {
    if i < j {
      LaterRunStart(h, plugin, i, j);
    } else if j < i {
      LaterRunStart(h, plugin, j, i);
    }
  }

  /** What the conditions of one plugin look like in terms of the start of its current run. */
  ghost predicate Tells(cs: seq<Condition>, plugin: string, start: Option<Event>) {
    match start
    case None => Find(cs, SucceededType(plugin)).None? && Find(cs, FailedType(plugin)).None?
    case Some(e) =>
      && var c, other := Find(cs, e.Type()), Find(cs, e.OtherType());
         && c.Some? && c.value.status.IsTrue? && c.value.lastTransition == e.setAt
         && (other.Some? ==> other.value.status.IsFalse? && other.value.lastTransition == e.resetAt)
  }

  /** A call for one plugin leaves the conditions of every other plugin alone. */
  lemma OtherPluginsUnaffected(cs: seq<Condition>, e: Event, plugin: string)
    requires e.plugin != plugin
    ensures Find(Apply(cs, e), SucceededType(plugin)) == Find(cs, SucceededType(plugin))
    ensures Find(Apply(cs, e), FailedType(plugin)) == Find(cs, FailedType(plugin))
  {
    TypesAreInjective(e.plugin, plugin);
    TypesAreInjective(plugin, e.plugin);
    FindAfterApply(cs, e, SucceededType(plugin));
    FindAfterApply(cs, e, FailedType(plugin));
  }

  lemma FindAfterApply(cs: seq<Condition>, e: Event, kind: string)
    ensures var found := Find(Apply(cs, e), kind);
            if kind == e.Type() then
              && found.Some? && found.value.status.IsTrue? && found.value.lastUpdate == e.setAt
              && found.value.message == e.message
              && var was := Find(cs, kind);
                 found.value.lastTransition
                 == if was.Some? && was.value.status.IsTrue? then was.value.lastTransition else e.setAt
            else if kind == e.OtherType() then
              var was := Find(cs, kind);
              if was.None? then found.None?
              else && found.Some? && found.value.status.IsFalse?
                   && found.value.lastTransition
                      == if was.value.status.IsFalse? then was.value.lastTransition else e.resetAt
            else found == Find(cs, kind)
  {
    TypesAreInjective(e.plugin, e.plugin);
    var message := if e.finished then RESET_BY_FINISH else RESET_BY_FAIL;
    var cleared := if Find(cs, e.OtherType()).None? then cs else Set(cs, e.OtherType(), IsFalse, e.resetAt, "", message);
    FindAfterSet(cs, e.OtherType(), IsFalse, e.resetAt, "", message, kind);
    FindAfterSet(cleared, e.Type(), IsTrue, e.setAt, "", e.message, kind);
  }

  lemma {:induction false} HistoryTells(h: seq<Event>, plugin: string)
    ensures Tells(Replay(h), plugin, if RunStart(h, plugin) < 0 then None else Some(h[RunStart(h, plugin)]))
    ensures UniqueTypes(Replay(h))
  {
    if h != [] {
      var n := |h| - 1;
      var e := h[n];
      HistoryTells(h[..n], plugin);
      var cs := Replay(h[..n]);
      var message := if e.finished then RESET_BY_FINISH else RESET_BY_FAIL;
      UniqueAfterSet(cs, e.OtherType(), IsFalse, e.resetAt, "", message);
      var cleared := if Find(cs, e.OtherType()).None? then cs else Set(cs, e.OtherType(), IsFalse, e.resetAt, "", message);
      UniqueAfterSet(cleared, e.Type(), IsTrue, e.setAt, "", e.message);
      if e.plugin == plugin {
        FindAfterApply(cs, e, e.Type());
        FindAfterApply(cs, e, e.OtherType());
        TypesAreInjective(plugin, plugin);
      } else {
        OtherPluginsUnaffected(cs, e, plugin);
      }
    }
  }

  /** Over every sequence of SetPluginFinished and SetPluginFailed calls from an empty list: conditions
      stay unique per type; a plugin is finished exactly if its last call said so and failed exactly if
      its last call said so, never both; and the time of its last transition is the time of the first
      call of the current unbroken run, for the condition that is true as for the one that is false. */
  lemma ConditionsTellHistory(h: seq<Event>, plugin: string, last: int, start: int)
    ensures UniqueTypes(Replay(h))
    ensures !(IsFinished(Replay(h), plugin) && IsFailed(Replay(h), plugin))
    ensures (forall j | 0 <= j < |h| :: h[j].plugin != plugin) ==>
              !IsFinished(Replay(h), plugin) && !IsFailed(Replay(h), plugin)
    ensures IsLast(h, plugin, last) ==>
              && (IsFinished(Replay(h), plugin) <==> h[last].finished)
              && (IsFailed(Replay(h), plugin) <==> !h[last].finished)
    ensures IsRunStart(h, plugin, start) ==> Tells(Replay(h), plugin, Some(h[start]))
  {
    HistoryTells(h, plugin);
    RunStartIs(h, plugin);
    var r := RunStart(h, plugin);
    if r >= 0 {
      if IsRunStart(h, plugin, start) {
        RunStartIsUnique(h, plugin, r, start);
      }
      if IsLast(h, plugin, last) {
        assert last >= r && h[last].finished == h[r].finished;
      }
    }
  }
}
