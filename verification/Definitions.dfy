/** What CreateAchievement and UpdateAchievement let into the catalogue, whatever else happens. */
module Definitions {
  import opened Basics
  import opened AchievementRows
  import opened Protocol

  /** Every definition has a name of its own and a criterion a member can meet. */
  ghost predicate Sensible(defs: Defs) {
    && (forall id :: id in defs ==>
        && defs[id].id == id && defs[id].slug != []
        && (defs[id].metric != [] || defs[id].trigger != [])
        && (defs[id].metric != [] ==> defs[id].threshold > 0))
    && (forall a, b :: a in defs && b in defs && defs[a].slug == defs[b].slug ==> a == b)
  }

  /** A definition is created exactly if it is sensible and its slug is new, and then it is disabled. */
  lemma CreatedExactlyWhen(defs: Defs, a: Action)
    requires a.Create? && a.id !in defs
    ensures a.id in Define(defs, a) <==>
      && a.slug != [] && (forall x :: x in defs ==> defs[x].slug != a.slug)
      && (a.metric != [] || a.trigger != []) && (a.metric != [] ==> a.threshold > 0)
    ensures a.id in Define(defs, a) ==>
      Define(defs, a) ==
        defs[a.id := Def(a.id, a.slug, a.reward, a.metric, a.threshold, a.trigger, false, None)]
    ensures a.id !in Define(defs, a) ==> Define(defs, a) == defs
  {
  }

  /** An edit is taken exactly if the criterion still makes sense; it moves neither slug nor marks. */
  lemma EditedExactlyWhen(defs: Defs, a: Action)
    requires a.Edit? && a.id in defs
    ensures Define(defs, a) ==
      if (a.metric == [] && a.trigger == []) || (a.metric != [] && a.threshold <= 0) then defs
      else
        var d := defs[a.id];
        defs[a.id :=
          Def(d.id, d.slug, a.reward, a.metric, a.threshold, a.trigger, d.enabled, d.backfilledAt)]
  {
  }

  lemma DefineKeepsSensible(defs: Defs, a: Action)
    requires Sensible(defs)
    ensures Sensible(Define(defs, a))
  {
  }

  /** Only defining and the end of a first pass write definitions, and the latter only the mark. */
  lemma StepKeepsDefs(w: World, t: nat, o: Outcome)
    requires t in w.tasks
    ensures Act(w, Step(t, o)).book.defs == w.book.defs
  {
  }

  lemma ActKeepsSensible(w: World, a: Action)
    requires Sensible(w.book.defs)
    ensures Sensible(Act(w, a).book.defs)
  {
    hide Sensible, Define, StepFlow, StepSweep;
    match a
    case Create(_, _, _, _, _, _) => DefineKeepsSensible(w.book.defs, a);
    case Edit(_, _, _, _, _) => DefineKeepsSensible(w.book.defs, a);
    case Enable(_, _) => DefineKeepsSensible(w.book.defs, a);
    case Step(t, o) => if t in w.tasks { StepKeepsDefs(w, t, o); }
    case PassEnd(t) => PassEndKeepsSensible(w, t);
    case _ =>
  }

  lemma PassEndKeepsSensible(w: World, t: nat)
    requires Sensible(w.book.defs)
    ensures Sensible(Act(w, PassEnd(t)).book.defs)
  {
  }

  /** Over any run, whatever fails, crashes or is edited, the catalogue makes sense. */
  lemma {:induction false} CatalogueStaysSensible(w: World, acts: seq<Action>)
    requires Sensible(w.book.defs)
    ensures Sensible(Run(w, acts).book.defs)
    decreases |acts|
  {
    hide Sensible, Act;
    if acts != [] {
      ActKeepsSensible(w, acts[0]);
      CatalogueStaysSensible(Apply(w, acts[0]), acts[1..]);
    }
  }
}
