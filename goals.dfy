// Goals: the goal record, the store's add, delete and update, the status statistics,
// the priority groups and the bounded list of suggestions.

module Goals {
  import opened Common
  import opened Text
  import Calendar

  /** The three statuses of the application. A spreadsheet import can bring in any other
      label, which no status filter matches. */
  datatype GoalStatus = Done | OnGoing | NotYet | OtherStatus(text: string)

  /** The four priorities, from "very very important" down to "not important"; an import
      can bring in any other label. */
  datatype GoalValue = VVIMP | VIMP | IMP | NIMP | OtherValue(text: string)

  /** The ten durations a goal may have, in days. */
  predicate IsGoalDays(d: int)
  {
    d == 1 || d == 7 || d == 15 || d == 30 || d == 45 || d == 90 || d == 150 || d == 180 || d == 270 || d == 365
  }

  type GoalDays = d: int | IsGoalDays(d) witness 30

  const GoalDaysOptions: seq<GoalDays> := [1, 7, 15, 30, 45, 90, 150, 180, 270, 365]

  /** A goal; `createdAt` and `completedAt` are instants in milliseconds. */
  datatype Goal = Goal(
    id: string,
    name: string,
    status: GoalStatus,
    days: GoalDays,
    value: GoalValue,
    createdAt: int,
    completedAt: Option<int>)

  /** The fields an update may carry; every field but `id` and `createdAt` may be given.
      `completedAt: Some(None)` is an update that explicitly unsets the completion time. */
  datatype GoalUpdate = GoalUpdate(
    name: Option<string>,
    status: Option<GoalStatus>,
    days: Option<GoalDays>,
    value: Option<GoalValue>,
    completedAt: Option<Option<int>>)

  /** `{ ...g, ...updates }`: every field the update gives replaces the goal's. */
  function Merge(g: Goal, u: GoalUpdate): (r: Goal)
    ensures r.id == g.id && r.createdAt == g.createdAt
    ensures u == GoalUpdate(None, None, None, None, None) ==> r == g
  {
    g.(name := if u.name.Some? then u.name.value else g.name,
       status := if u.status.Some? then u.status.value else g.status,
       days := if u.days.Some? then u.days.value else g.days,
       value := if u.value.Some? then u.value.value else g.value,
       completedAt := if u.completedAt.Some? then u.completedAt.value else g.completedAt)
  }

  /** Merging the same update twice is merging it once. */
  lemma MergeIdempotent(g: Goal, u: GoalUpdate)
    ensures Merge(Merge(g, u), u) == Merge(g, u)
  {
  }

  /** The completion-time rule of `updateGoal` as written: a move to done stamps `now`, and
      any update that does not set the status to done clears the stamp of a done goal,
      even an update that has no status at all and so leaves the goal done. */
  function UpdatedAsWritten(g: Goal, u: GoalUpdate, now: int): (r: Goal)
    ensures r.id == g.id && r.createdAt == g.createdAt
    ensures g.status != Done && u.status == Some(Done) ==> r.completedAt == Some(now)
    ensures g.status == Done && u.status != Some(Done) ==> r.completedAt == None
  {
    var m := Merge(g, u);
    if u.status == Some(Done) && g.status != Done then m.(completedAt := Some(now))
    else if u.status != Some(Done) && g.status == Done then m.(completedAt := None)
    else m
  }

  /** A goal is stamped when it carries a completion time exactly when it is done. */
  predicate Stamped(g: Goal)
  {
    g.status == Done <==> g.completedAt.Some?
  }

  /** Changing only the duration of a done goal leaves it done but without its completion
      time. */
  lemma AsWrittenUnstampsDoneGoal()
    ensures var g := Goal("g", "Run a marathon", Done, 30, IMP, 0, Some(1000));
      var r := UpdatedAsWritten(g, GoalUpdate(None, None, Some(7), None, None), 2000);
      Stamped(g) && r.status == Done && r.completedAt == None && !Stamped(r)
  {
  }

  /** The corrected rule: the stamp is cleared only when the update moves a done goal to
      another status. */
  function Updated(g: Goal, u: GoalUpdate, now: int): (r: Goal)
    ensures r.id == g.id && r.createdAt == g.createdAt
    ensures g.status != Done && r.status == Done ==> r.completedAt == Some(now)
    ensures g.status == Done && r.status != Done ==> r.completedAt == None
    ensures u.completedAt.None? && r.status == g.status ==> r.completedAt == g.completedAt
  {
    var m := Merge(g, u);
    if u.status == Some(Done) && g.status != Done then m.(completedAt := Some(now))
    else if u.status.Some? && u.status.value != Done && g.status == Done then m.(completedAt := None)
    else m
  }

  /** An update that does not set the completion time itself keeps a goal stamped. */
  lemma UpdatedKeepsStamped(g: Goal, u: GoalUpdate, now: int)
    requires Stamped(g) && u.completedAt.None?
    ensures Stamped(Updated(g, u, now))
  {
  }

  /** The two rules differ only on updates that carry no status. */
  lemma RulesAgreeWhenStatusGiven(g: Goal, u: GoalUpdate, now: int)
    requires u.status.Some? || g.status != Done
    ensures UpdatedAsWritten(g, u, now) == Updated(g, u, now)
  {
  }

  predicate HasGoalId(gs: seq<Goal>, id: string)
  {
    exists i :: 0 <= i < |gs| && gs[i].id == id
  }

  predicate IdsDistinct(gs: seq<Goal>)
  {
    forall i, j :: 0 <= i < j < |gs| ==> gs[i].id != gs[j].id
  }

  /** The goal `addGoal` builds: created now, not completed. */
  function NewGoal(id: string, name: string, status: GoalStatus, days: GoalDays, value: GoalValue, now: int): (g: Goal)
    ensures g.id == id && g.createdAt == now && g.completedAt == None
  {
    Goal(id, name, status, days, value, now, None)
  }

  /** `goals.filter(g => g.id !== id)`. */
  function WithoutGoal(gs: seq<Goal>, id: string): (r: seq<Goal>)
    ensures forall g :: g in r <==> g in gs && g.id != id
    ensures |r| <= |gs|
  {
    if gs == [] then []
    else
      var p := WithoutGoal(gs[..|gs| - 1], id);
      assert forall g :: g in gs <==> g in gs[..|gs| - 1] || g == gs[|gs| - 1] by {
        assert gs == gs[..|gs| - 1] + [gs[|gs| - 1]];
      }
      if gs[|gs| - 1].id != id then p + [gs[|gs| - 1]] else p
  }

  /** Deleting keeps ids distinct: a kept goal's id differs from every earlier goal's. */
  lemma {:induction false} WithoutGoalKeepsDistinct(gs: seq<Goal>, id: string)
    requires IdsDistinct(gs)
    ensures IdsDistinct(WithoutGoal(gs, id))
    decreases |gs|
  {
    if gs != [] {
      var init, last := gs[..|gs| - 1], gs[|gs| - 1];
      assert IdsDistinct(init) by {
        forall i, j | 0 <= i < j < |init| ensures init[i].id != init[j].id {
          assert init[i] == gs[i] && init[j] == gs[j];
        }
      }
      WithoutGoalKeepsDistinct(init, id);
      var p := WithoutGoal(init, id);
      if last.id != id {
        assert WithoutGoal(gs, id) == p + [last];
        forall k | 0 <= k < |p| ensures p[k].id != last.id {
          assert p[k] in init;
          var i :| 0 <= i < |init| && init[i] == p[k];
          assert gs[i] == init[i];
        }
      }
    }
  }

  /** Deleting keeps the remaining goals in their order: the result for a concatenation is
      the concatenation of the results, and a single goal stays exactly when its id differs. */
  lemma {:induction false} WithoutGoalConcat(a: seq<Goal>, b: seq<Goal>, id: string)
    ensures WithoutGoal(a + b, id) == WithoutGoal(a, id) + WithoutGoal(b, id)
    ensures forall g :: WithoutGoal([g], id) == if g.id == id then [] else [g]
    decreases |b|
  {
    if b != [] {
      var b', g := b[..|b| - 1], b[|b| - 1];
      var keep := if g.id == id then [] else [g];
      assert b == b' + [g];
      AppendAssoc(a, b', [g]);
      WithoutGoalConcat(a, b', id);
      WithoutGoalSnoc(a + b', g, id);
      WithoutGoalSnoc(b', g, id);
      AppendAssoc(WithoutGoal(a, id), WithoutGoal(b', id), keep);
    } else {
      assert a + b == a;
    }
    forall g ensures WithoutGoal([g], id) == if g.id == id then [] else [g] {
      assert [] + [g] == [g];
      WithoutGoalSnoc([], g, id);
    }
  }

  /** One step of the filter: a goal added last stays exactly when its id differs. */
  lemma WithoutGoalSnoc(gs: seq<Goal>, g: Goal, id: string)
    ensures WithoutGoal(gs + [g], id) == WithoutGoal(gs, id) + if g.id == id then [] else [g]
  {
    var s := gs + [g];
    assert s[..|s| - 1] == gs && s[|s| - 1] == g;
  }

  /** Deleting an id no goal has changes nothing. */
  lemma {:induction false} WithoutAbsentGoal(gs: seq<Goal>, id: string)
    requires !HasGoalId(gs, id)
    ensures WithoutGoal(gs, id) == gs
  {
    if gs != [] {
      var p := gs[..|gs| - 1];
      assert forall i :: 0 <= i < |p| ==> p[i] == gs[i];
      WithoutAbsentGoal(p, id);
      assert gs[|gs| - 1].id != id;
      assert p + [gs[|gs| - 1]] == gs;
    }
  }

  /** Deleting a goal just added under a fresh id gives back the list before. */
  lemma DeleteUndoesAdd(gs: seq<Goal>, id: string, name: string, status: GoalStatus, days: GoalDays, value: GoalValue, now: int)
    requires !HasGoalId(gs, id)
    ensures WithoutGoal(gs + [NewGoal(id, name, status, days, value, now)], id) == gs
  {
    var s := gs + [NewGoal(id, name, status, days, value, now)];
    assert s[..|s| - 1] == gs;
    WithoutAbsentGoal(gs, id);
  }

  /** `updateGoal`'s map: the goals with that id updated, the others kept. */
  function UpdatedAll(gs: seq<Goal>, id: string, u: GoalUpdate, now: int): (r: seq<Goal>)
    ensures |r| == |gs|
    ensures forall i :: 0 <= i < |gs| ==> r[i].id == gs[i].id
    ensures forall i :: 0 <= i < |gs| && gs[i].id != id ==> r[i] == gs[i]
  {
    seq(|gs|, i requires 0 <= i < |gs| => if gs[i].id == id then Updated(gs[i], u, now) else gs[i])
  }

  /** An update never changes the ids, so it keeps them distinct, and an update of an id no
      goal has changes nothing. */
  lemma UpdateKeepsIds(gs: seq<Goal>, id: string, u: GoalUpdate, now: int)
    ensures IdsDistinct(gs) ==> IdsDistinct(UpdatedAll(gs, id, u, now))
    ensures !HasGoalId(gs, id) ==> UpdatedAll(gs, id, u, now) == gs
  {
  }

  /** The list of goals with the operations of the hook; ids are passed in. */
  class GoalStore {
    var goals: seq<Goal>

    /** No two goals share an id. */
    predicate Valid()
      reads this
    {
      IdsDistinct(goals)
    }

    /** The store starts from what was saved. */
    constructor (stored: seq<Goal>)
      ensures goals == stored
    {
      goals := stored;
    }

    /** `addGoal`: a fresh id and the current instant are given. */
    method AddGoal(id: string, name: string, status: GoalStatus, days: GoalDays, value: GoalValue, now: int)
      requires !HasGoalId(goals, id)
      modifies this
      ensures goals == old(goals) + [NewGoal(id, name, status, days, value, now)]
      ensures old(Valid()) ==> Valid()
    {
      goals := goals + [NewGoal(id, name, status, days, value, now)];
    }

    /** `deleteGoal`. */
    method DeleteGoal(id: string)
      modifies this
      ensures goals == WithoutGoal(old(goals), id)
      ensures forall g :: g in goals <==> g in old(goals) && g.id != id
      ensures old(Valid()) ==> Valid()
    {
      if Valid() {
        WithoutGoalKeepsDistinct(goals, id);
      }
      goals := WithoutGoal(goals, id);
    }

    /** `updateGoal`, with the corrected completion-time rule. */
    method UpdateGoal(id: string, u: GoalUpdate, now: int)
      modifies this
      ensures goals == UpdatedAll(old(goals), id, u, now)
      ensures old(Valid()) ==> Valid()
    {
      UpdateKeepsIds(goals, id, u, now);
      goals := UpdatedAll(goals, id, u, now);
    }

    /** `reorderGoals`: the list comes back reordered from the drag-and-drop table. */
    method ReorderGoals(newGoals: seq<Goal>)
      modifies this
      ensures goals == newGoals
    {
      goals := newGoals;
    }
  }

  /** The filter `g => g.status === st`. */
  function HasStatus(st: GoalStatus): Goal -> bool
  {
    (g: Goal) => g.status == st
  }

  /** The filter `g => g.value === v`. */
  function HasValue(v: GoalValue): Goal -> bool
  {
    (g: Goal) => g.value == v
  }

  function WithStatus(gs: seq<Goal>, st: GoalStatus): (r: seq<Goal>)
    ensures forall g :: g in r <==> g in gs && g.status == st
  {
    Filter(gs, HasStatus(st))
  }

  function WithValue(gs: seq<Goal>, v: GoalValue): (r: seq<Goal>)
    ensures forall g :: g in r <==> g in gs && g.value == v
  {
    Filter(gs, HasValue(v))
  }

  predicate KnownStatus(g: Goal)
  {
    !g.status.OtherStatus?
  }

  predicate KnownValue(g: Goal)
  {
    !g.value.OtherValue?
  }

  datatype GoalStats = GoalStats(total: nat, done: nat, ongoing: nat, notYet: nat)

  /** `getGoalStats`. */
  function Stats(gs: seq<Goal>): (r: GoalStats)
    ensures r.total == |gs|
    ensures r.done + r.ongoing + r.notYet <= r.total
    ensures (forall g :: g in gs ==> KnownStatus(g)) ==> r.done + r.ongoing + r.notYet == r.total
  {
    StatusesPartition(gs);
    GoalStats(|gs|, |WithStatus(gs, Done)|, |WithStatus(gs, OnGoing)|, |WithStatus(gs, NotYet)|)
  }

  /** The three status counts never exceed the number of goals, and add up to it when every
      status is one of the three. */
  lemma {:induction false} StatusesPartition(gs: seq<Goal>)
    ensures |WithStatus(gs, Done)| + |WithStatus(gs, OnGoing)| + |WithStatus(gs, NotYet)| <= |gs|
    ensures (forall g :: g in gs ==> KnownStatus(g)) ==>
      |WithStatus(gs, Done)| + |WithStatus(gs, OnGoing)| + |WithStatus(gs, NotYet)| == |gs|
  {
    if gs != [] {
      var p := gs[..|gs| - 1];
      assert forall g :: g in p ==> g in gs;
      StatusesPartition(p);
      assert gs[|gs| - 1] in gs;
    }
  }

  datatype ValueGroups = ValueGroups(vvimp: seq<Goal>, vimp: seq<Goal>, imp: seq<Goal>, nimp: seq<Goal>)

  /** `getGoalsByValue`: the goals of each priority, in list order. */
  function ByValue(gs: seq<Goal>): (r: ValueGroups)
    ensures forall g :: g in r.vvimp <==> g in gs && g.value == VVIMP
    ensures forall g :: g in r.vimp <==> g in gs && g.value == VIMP
    ensures forall g :: g in r.imp <==> g in gs && g.value == IMP
    ensures forall g :: g in r.nimp <==> g in gs && g.value == NIMP
  {
    ValueGroups(WithValue(gs, VVIMP), WithValue(gs, VIMP), WithValue(gs, IMP), WithValue(gs, NIMP))
  }

  /** The four priority groups hold every goal whose priority is one of the four exactly
      once. */
  lemma {:induction false} ValuesPartition(gs: seq<Goal>)
    ensures var b := ByValue(gs); |b.vvimp| + |b.vimp| + |b.imp| + |b.nimp| <= |gs|
    ensures var b := ByValue(gs);
      (forall g :: g in gs ==> KnownValue(g)) ==> |b.vvimp| + |b.vimp| + |b.imp| + |b.nimp| == |gs|
  {
    if gs != [] {
      var p := gs[..|gs| - 1];
      assert forall g :: g in p ==> g in gs;
      ValuesPartition(p);
      assert gs[|gs| - 1] in gs;
    }
  }

  /** A high-priority goal not started yet. */
  predicate UrgentGoal(g: Goal)
  {
    g.status == NotYet && (g.value == VVIMP || g.value == VIMP)
  }

  /** An on-going goal of at most a week. */
  predicate ShortDeadline(g: Goal)
  {
    g.status == OnGoing && g.days <= 7
  }

  /** An on-going goal of half a year or more. */
  predicate LongTerm(g: Goal)
  {
    g.status == OnGoing && g.days >= 180
  }

  /** A done goal completed at most seven whole days before `now` (the day difference is
      rounded down). */
  predicate RecentlyCompleted(g: Goal, now: int)
  {
    g.status == Done && g.completedAt.Some? && (now - g.completedAt.value) / Calendar.MsPerDay <= 7
  }

  function CompletedRecently(now: int): Goal -> bool
  {
    (g: Goal) => RecentlyCompleted(g, now)
  }

  /** More goals of no importance than of the two highest priorities. */
  predicate Unbalanced(gs: seq<Goal>)
  {
    var b := ByValue(gs);
    |b.nimp| > |b.vvimp| + |b.vimp|
  }

  /** The suggestions, one per rule; `Urgent` names the first urgent goal. */
  datatype Suggestion =
    | Urgent(count: nat, first: string)
    | ShortDeadlines(count: nat)
    | LongTermGoals(count: nat)
    | Celebrate(count: nat)
    | Rebalance
    | KeepGoing

  /** The text shown for a suggestion. */
  function Message(s: Suggestion): string
  {
    match s
    case Urgent(n, first) => UrgentPrefix(n) + first + "\"."
    case ShortDeadlines(n) =>
      "\U{23F0} " + NatToString(n) + " goal(s) with short deadlines (\U{2264}7 days) are still in progress. Focus on completing them!"
    case LongTermGoals(n) =>
      "\U{1F4C5} You have " + NatToString(n) + " long-term goal(s) in progress. Break them into smaller milestones for better tracking."
    case Celebrate(n) =>
      "\U{1F389} Great job! You completed " + NatToString(n) + " goal(s) in the last week. Keep the momentum going!"
    case Rebalance =>
      "\U{1F4A1} Consider focusing more on important goals. You have more low-priority than high-priority goals."
    case KeepGoing => "\U{2728} You're doing great! Keep tracking your goals consistently."
  }

  function UrgentPrefix(n: nat): string
  {
    "\U{1F525} You have " + NatToString(n) + " high-priority goal(s) not started yet. Consider beginning with \""
  }

  /** The urgent suggestion's text names the goal. */
  lemma UrgentMessageNamesGoal(n: nat, first: string)
    ensures Contains(Message(Urgent(n, first)), first)
  {
    var m := Message(Urgent(n, first));
    var k := |UrgentPrefix(n)|;
    assert m[k..k + |first|] == first;
    ContainsAt(m, first, k);
  }

  /** No rule fires: the case of the encouraging fallback. */
  predicate NoRuleFires(gs: seq<Goal>, now: int)
  {
    (forall g :: g in gs ==> !UrgentGoal(g) && !ShortDeadline(g) && !LongTerm(g) && !RecentlyCompleted(g, now))
    && !Unbalanced(gs)
  }

  /** A non-empty filter result means some element passes. */
  lemma NonEmptyFilter(gs: seq<Goal>, p: Goal -> bool)
    ensures Filter(gs, p) != [] <==> exists g :: g in gs && p(g)
  {
    if Filter(gs, p) != [] {
      assert Filter(gs, p)[0] in Filter(gs, p);
    }
  }

  /** The suggestion of a rule that fired, or none. */
  function Opt(o: Option<Suggestion>): (r: seq<Suggestion>)
    ensures |r| == if o.Some? then 1 else 0
    ensures o.Some? ==> r[0] == o.value
  {
    if o.Some? then [o.value] else []
  }

  /** The first rule: goals of the two highest priorities that are not started. */
  function UrgentRule(gs: seq<Goal>): (r: Option<Suggestion>)
    ensures r.Some? <==> exists g :: g in gs && UrgentGoal(g)
    ensures r.Some? ==> r.value.Urgent?
  {
    var urgent := Filter(gs, UrgentGoal);
    NonEmptyFilter(gs, UrgentGoal);
    if |urgent| > 0 then Some(Urgent(|urgent|, urgent[0].name)) else None
  }

  function ShortDeadlineRule(gs: seq<Goal>): (r: Option<Suggestion>)
    ensures r.Some? <==> exists g :: g in gs && ShortDeadline(g)
    ensures r.Some? ==> r.value.ShortDeadlines?
  {
    var short := Filter(gs, ShortDeadline);
    NonEmptyFilter(gs, ShortDeadline);
    if |short| > 0 then Some(ShortDeadlines(|short|)) else None
  }

  function LongTermRule(gs: seq<Goal>): (r: Option<Suggestion>)
    ensures r.Some? <==> exists g :: g in gs && LongTerm(g)
    ensures r.Some? ==> r.value.LongTermGoals?
  {
    var long := Filter(gs, LongTerm);
    NonEmptyFilter(gs, LongTerm);
    if |long| > 0 then Some(LongTermGoals(|long|)) else None
  }

  function CelebrateRule(gs: seq<Goal>, now: int): (r: Option<Suggestion>)
    ensures r.Some? <==> exists g :: g in gs && RecentlyCompleted(g, now)
    ensures r.Some? ==> r.value.Celebrate?
  {
    var recent := Filter(gs, CompletedRecently(now));
    NonEmptyFilter(gs, CompletedRecently(now));
    if |recent| > 0 then Some(Celebrate(|recent|)) else None
  }

  function BalanceRule(gs: seq<Goal>): (r: Option<Suggestion>)
    ensures r.Some? <==> Unbalanced(gs)
    ensures r.Some? ==> r.value == Rebalance
  {
    if Unbalanced(gs) then Some(Rebalance) else None
  }

  /** The four rules after the urgent one, in the order `getSuggestions` tries them;
      none of them is the urgent suggestion. */
  function LaterRules(gs: seq<Goal>, now: int): (r: seq<Suggestion>)
    ensures |r| <= 4 && forall s :: s in r ==> !s.Urgent? && s != KeepGoing
    ensures r == [] <==> ShortDeadlineRule(gs).None? && LongTermRule(gs).None? && CelebrateRule(gs, now).None? && BalanceRule(gs).None?
  {
    var a, b, c, d := ShortDeadlineRule(gs), LongTermRule(gs), CelebrateRule(gs, now), BalanceRule(gs);
    OptsJoined(a, b, c, d);
    Opt(a) + Opt(b) + Opt(c) + Opt(d)
  }

  /** An optional suggestion that is neither urgent nor the fallback. */
  predicate LaterKind(o: Option<Suggestion>)
  {
    o.Some? ==> !o.value.Urgent? && o.value != KeepGoing
  }

  /** Four optional suggestions of the later kinds, joined in order. */
  lemma OptsJoined(a: Option<Suggestion>, b: Option<Suggestion>, c: Option<Suggestion>, d: Option<Suggestion>)
    requires LaterKind(a) && LaterKind(b) && LaterKind(c) && LaterKind(d)
    ensures var r := Opt(a) + Opt(b) + Opt(c) + Opt(d);
      |r| <= 4 && (forall s :: s in r ==> !s.Urgent? && s != KeepGoing)
      && (r == [] <==> a.None? && b.None? && c.None? && d.None?)
  {
  }

  /** The suggestions of the rules that fire, in rule order: none exactly when no rule
      fires, and the urgent one, if any, first and nowhere else. */
  function Fired(gs: seq<Goal>, now: int): (r: seq<Suggestion>)
    ensures |r| <= 5 && KeepGoing !in r
    ensures r == [] <==> NoRuleFires(gs, now)
    ensures (exists g :: g in gs && UrgentGoal(g)) <==> r != [] && r[0].Urgent?
    ensures forall i :: 1 <= i < |r| ==> !r[i].Urgent?
  {
    var later := LaterRules(gs, now);
    UrgentThenLater(UrgentRule(gs), later);
    Opt(UrgentRule(gs)) + later
  }

  /** An optional urgent suggestion put before up to four others that are neither urgent nor
      the fallback. */
  lemma UrgentThenLater(u: Option<Suggestion>, later: seq<Suggestion>)
    requires u.Some? ==> u.value.Urgent?
    requires |later| <= 4 && forall s :: s in later ==> !s.Urgent? && s != KeepGoing
    ensures var r := Opt(u) + later;
      |r| <= 5 && KeepGoing !in r && (r == [] <==> u.None? && later == [])
      && (u.Some? <==> r != [] && r[0].Urgent?) && forall i :: 1 <= i < |r| ==> !r[i].Urgent?
  {
    var r := Opt(u) + later;
    assert forall i :: |Opt(u)| <= i < |r| ==> r[i] == later[i - |Opt(u)|];
  }

  /** What `getSuggestions` returns: the fired suggestions, or the fallback when none
      fired, cut to the first four. */
  function Suggestions(gs: seq<Goal>, now: int): (r: seq<Suggestion>)
    ensures 1 <= |r| <= 4
    ensures KeepGoing in r <==> NoRuleFires(gs, now)
    ensures (exists s :: s in r && s.Urgent?) <==> exists g :: g in gs && UrgentGoal(g)
  {
    var f := Fired(gs, now);
    if f == [] then [KeepGoing]
    else
      var r := f[..if |f| <= 4 then |f| else 4];
      assert r[0] == f[0];
      r
  }

  /** The urgent suggestion, when there is one, comes first, counts the urgent goals and
      names the first of them in list order. */
  lemma UrgentNamesFirst(gs: seq<Goal>, now: int)
    requires exists g :: g in gs && UrgentGoal(g)
    ensures exists i :: 0 <= i < |gs| && UrgentGoal(gs[i]) && (forall j :: 0 <= j < i ==> !UrgentGoal(gs[j]))
                        && Suggestions(gs, now)[0] == Urgent(|Filter(gs, UrgentGoal)|, gs[i].name)
  {
    var urgent := Filter(gs, UrgentGoal);
    NonEmptyFilter(gs, UrgentGoal);
    FilterHead(gs, UrgentGoal);
    var i :| 0 <= i < |gs| && gs[i] == urgent[0] && UrgentGoal(gs[i]) && forall j :: 0 <= j < i ==> !UrgentGoal(gs[j]);
    var f := Fired(gs, now);
    assert f[0] == UrgentRule(gs).value == Urgent(|urgent|, gs[i].name);
    assert Suggestions(gs, now)[0] == f[0];
  }

  /** `if (found.length > 0) suggestions.push(...)`. */
  method PushIfFired(suggestions: seq<Suggestion>, o: Option<Suggestion>) returns (r: seq<Suggestion>)
    ensures r == suggestions + Opt(o)
  {
    r := suggestions;
    if o.Some? {
      r := r + [o.value];
    }
  }

  /** `getSuggestions`: the rules push their suggestions in order, the fallback is pushed
      when none fired, and the first four are returned. */
  method GetSuggestions(gs: seq<Goal>, now: int) returns (r: seq<Suggestion>)
    ensures r == Suggestions(gs, now)
  {
    var suggestions: seq<Suggestion> := [];
    suggestions := PushIfFired(suggestions, UrgentRule(gs));
    var u := Opt(UrgentRule(gs));
    assert suggestions == u;
    suggestions := PushIfFired(suggestions, ShortDeadlineRule(gs));
    suggestions := PushIfFired(suggestions, LongTermRule(gs));
    ghost var s2 := Opt(ShortDeadlineRule(gs)) + Opt(LongTermRule(gs));
    AppendAssoc(u, Opt(ShortDeadlineRule(gs)), Opt(LongTermRule(gs)));
    assert suggestions == u + s2;
    suggestions := PushIfFired(suggestions, CelebrateRule(gs, now));
    AppendAssoc(u, s2, Opt(CelebrateRule(gs, now)));
    ghost var s3 := s2 + Opt(CelebrateRule(gs, now));
    suggestions := PushIfFired(suggestions, BalanceRule(gs));
    AppendAssoc(u, s3, Opt(BalanceRule(gs)));
    assert suggestions == u + LaterRules(gs, now);
    if |suggestions| == 0 {
      suggestions := suggestions + [KeepGoing];
    }
    r := if |suggestions| <= 4 then suggestions else suggestions[..4];
  }
}
