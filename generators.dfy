/** The per-state formula generators of the encoder: `sys_init_from_ts`,
    `sys_trans_from_ts`, `env_trans_from_sys_ts`, `env_trans_from_env_ts` and
    `ap_trans_from_ts`. Each is a method with the source's loops, proved to return
    `ShowAll` of a list of formula trees; lemmas say what those trees mean. */
module Generators {
  import opened Wrappers
  import opened Text
  import opened TransSys
  import opened Prop
  import opened Combinators

  /** The ids of the given action kind cover every tag of that kind on the transitions
      (what `ids[action]` needs). */
  predicate ActionIdsCover(trans: seq<Edge>, k: ActionKind, ids: Option<map<Symbol, string>>) {
    forall e | e in trans :: LabelIdCovered(e.edgeLabel, k, ids)
  }

  /** The action of kind `k` on a label has an id, when ids are given. */
  predicate LabelIdCovered(l: EdgeLabel, k: ActionKind, ids: Option<map<Symbol, string>>) {
    ids.Some? && LabelAction(l, k).Some? ==> LabelAction(l, k).value in ids.value
  }

  /** Every state and every transition end has an id. */
  predicate StateIdsCover(states: seq<string>, trans: seq<Edge>, ids: map<string, string>) {
    (forall s | s in states :: s in ids) && (forall e | e in trans :: e.dst in ids)
  }

  /** `ids[x]` for each `x`, in order: the values of an id dictionary. */
  function IdsOf<K>(xs: seq<K>, ids: map<K, string>): (r: seq<string>)
    requires forall x | x in xs :: x in ids
    ensures |r| == |xs|
    ensures forall i | 0 <= i < |xs| :: r[i] == ids[xs[i]]
  {
    seq(|xs|, i requires 0 <= i < |xs| => ids[xs[i]])
  }

  lemma ShowAllAtoms(xs: seq<string>)
    ensures ShowAll(Atoms(xs)) == xs
  {
  }

  /** Whether the action of kind `k` of a transition holds in `v` (true when the
      transition has none). */
  predicate ActionHolds(l: EdgeLabel, k: ActionKind, ids: Option<map<Symbol, string>>, v: set<string>)
    requires ids.Some? && LabelAction(l, k).Some? ==> LabelAction(l, k).value in ids.value
  {
    ActionText(l, k, ids).Some? ==> ActionText(l, k, ids).value in v
  }

  // ---------------------------------------------------------------------------
  // Propositions and initial states: sys_init_from_ts

  /** The label's propositions hold in `v` whenever the state `id` does. Every state
      satisfies this when there are no propositions. */
  predicate ApsFollow(id: string, l: StateLabel, aps: seq<string>, v: set<string>) {
    aps != [] && id in v ==> forall a | a in aps :: (a in v <==> a in TrueAps(l))
  }

  /** `!((id)) || (aps)`: an initial state forces its label. */
  function InitApClause(id: string, l: StateLabel, aps: seq<string>): Prop {
    Or(Neg(Paren(Paren(Atom(id)))), Paren(ApProp(l, aps)))
  }

  /** The clauses of the initial states whose proposition string is not empty, in order. */
  function InitApProps(xs: seq<string>, labels: map<string, StateLabel>, ids: map<string, string>, aps: seq<string>): seq<Prop>
    requires forall s | s in xs :: s in ids
  {
    if xs == [] then []
    else
      InitApProps(xs[..|xs| - 1], labels, ids, aps) + InitApItem(xs[|xs| - 1], labels, ids, aps)
  }

  /** The clause of one initial state, unless its proposition string is empty. */
  function InitApItem(s: string, labels: map<string, StateLabel>, ids: map<string, string>, aps: seq<string>): seq<Prop>
    requires s in ids
  {
    if SprintAps(LabelOf(labels, s), aps) == "" then [] else [InitApClause(ids[s], LabelOf(labels, s), aps)]
  }

  /** What `sys_init_from_ts` returns: the clauses above, then (unless the initial states
      are ignored) `False` when there are none, or the disjunction of their ids. */
  function SysInitProps(initial: seq<string>, labels: map<string, StateLabel>, ids: map<string, string>,
                        aps: seq<string>, ignoreInitial: bool): seq<Prop>
    requires forall s | s in initial :: s in ids
  {
    InitApProps(initial, labels, ids, aps) + (if ignoreInitial then [] else SomeInitial(initial, ids))
  }

  /** `False` without initial states, the disjunction of their ids otherwise. */
  function SomeInitial(initial: seq<string>, ids: map<string, string>): seq<Prop>
    requires forall s | s in initial :: s in ids
  {
    if initial == [] then [Lit(false)] else [Any(Parens(Atoms(IdsOf(initial, ids))))]
  }

  /** `!((id)) || (q)`, for any formula `q`. */
  lemma NegGuardShows(id: string, q: Prop)
    ensures Show(Or(Neg(Paren(Paren(Atom(id)))), Paren(q))) == "!(" + Pstr(id) + ") || (" + Show(q) + ")"
  {
    ShowNegParenAtom(id);
    assert Show(Neg(Paren(Paren(Atom(id))))) == "!(" + Pstr(id) + ")";
    assert Show(Paren(q)) == "(" + Show(q) + ")";
    NegGuardText(Pstr(id), Show(q));
  }

  /** The pieces of `!(p) || (q)`, glued. */
  lemma NegGuardText(p: string, q: string)
    ensures "!(" + p + ")" + " || " + ("(" + q + ")") == "!(" + p + ") || (" + q + ")"
  {
    assert ")" + " || " + "(" == ") || (";
  }

  lemma InitApClauseShows(id: string, l: StateLabel, aps: seq<string>)
    ensures Show(InitApClause(id, l, aps)) == "!(" + Pstr(id) + ") || (" + SprintAps(l, aps) + ")"
  {
    ApPropShows(l, aps);
    NegGuardShows(id, ApProp(l, aps));
  }

  lemma InitApStep(xs: seq<string>, i: int, labels: map<string, StateLabel>, ids: map<string, string>, aps: seq<string>)
    requires 0 <= i < |xs|
    requires forall s | s in xs :: s in ids
    ensures var l := LabelOf(labels, xs[i]);
            ShowAll(InitApProps(xs[..i + 1], labels, ids, aps)) ==
            ShowAll(InitApProps(xs[..i], labels, ids, aps))
              + (if SprintAps(l, aps) == "" then [] else ["!(" + Pstr(ids[xs[i]]) + ") || (" + SprintAps(l, aps) + ")"])
  {
    var l := LabelOf(labels, xs[i]);
    assert xs[..i + 1][..i] == xs[..i];
    var head := InitApProps(xs[..i], labels, ids, aps);
    var item := InitApItem(xs[i], labels, ids, aps);
    assert InitApProps(xs[..i + 1], labels, ids, aps) == head + item;
    ShowAllAppend(head, item);
    if SprintAps(l, aps) != "" {
      InitApClauseShows(ids[xs[i]], l, aps);
    }
  }

  /** `sys_init_from_ts(states, state_ids, aps, ignore_initial)`. */
  method SysInitFromTs(initial: seq<string>, labels: map<string, StateLabel>, stateIds: map<string, string>,
                       aps: seq<string>, ignoreInitial: bool) returns (init: seq<string>)
    requires forall s | s in initial :: s in stateIds
    ensures init == ShowAll(SysInitProps(initial, labels, stateIds, aps, ignoreInitial))
  {
    init := [];
    for i := 0 to |initial|
      invariant init == ShowAll(InitApProps(initial[..i], labels, stateIds, aps))
    {
      var state := initial[i];
      var stateId := stateIds[state];
      var lab := LabelOf(labels, state);
      var apStr := SprintAps(lab, aps);
      InitApStep(initial, i, labels, stateIds, aps);
      if apStr != "" {
        init := init + ["!(" + Pstr(stateId) + ") || (" + apStr + ")"];
      } else {
        assert init + [] == init;
      }
    }
    assert initial[..|initial|] == initial;
    InitTail(initial, labels, stateIds, aps, ignoreInitial);
    if ignoreInitial {
      return;
    }
    if initial == [] {
      init := init + ["False"];
      return;
    }
    init := init + [Disj(IdsOf(initial, stateIds))];
  }

  /** The text after the clauses of `sys_init_from_ts`. */
  lemma InitTail(initial: seq<string>, labels: map<string, StateLabel>, ids: map<string, string>,
                 aps: seq<string>, ignoreInitial: bool)
    requires forall s | s in initial :: s in ids
    ensures ShowAll(SysInitProps(initial, labels, ids, aps, ignoreInitial)) ==
            ShowAll(InitApProps(initial, labels, ids, aps))
              + (if ignoreInitial then [] else if initial == [] then ["False"] else [Disj(IdsOf(initial, ids))])
  {
    var head := InitApProps(initial, labels, ids, aps);
    if ignoreInitial {
      assert SysInitProps(initial, labels, ids, aps, ignoreInitial) == head + [];
    } else if initial == [] {
      ShowAllAppend(head, [Lit(false)]);
    } else {
      var xs := IdsOf(initial, ids);
      DisjShows(Atoms(xs));
      ShowAllAtoms(xs);
      ShowAllAppend(head, [Any(Parens(Atoms(xs)))]);
    }
  }

  /** The clause of a state says: when the state holds, its label's propositions do. */
  lemma InitApClauseMeaning(id: string, l: StateLabel, aps: seq<string>, now: set<string>, nxt: set<string>)
    requires "" !in aps
    ensures Eval(InitApClause(id, l, aps), now, nxt) <==> (id in now ==> forall a | a in aps :: (a in now <==> a in TrueAps(l)))
  {
    ApPropMeaning(l, aps, now, nxt);
    assert Eval(Paren(Atom(id)), now, nxt) == (id in now);
    assert Eval(Paren(Paren(Atom(id))), now, nxt) == (id in now);
    assert Eval(Paren(ApProp(l, aps)), now, nxt) == Eval(ApProp(l, aps), now, nxt);
  }

  /** With non-empty proposition names, the proposition string is empty only when there
      are no propositions. */
  lemma SprintApsEmpty(l: StateLabel, aps: seq<string>)
    requires "" !in aps
    ensures SprintAps(l, aps) == "" <==> aps == []
  {
    ApPropShows(l, aps);
    ApPropMeaning(l, aps, {}, {});
  }

  /** The clause of one initial state holds exactly when the state forces its label. */
  lemma InitApItemMeaning(s: string, labels: map<string, StateLabel>, ids: map<string, string>, aps: seq<string>,
                          now: set<string>, nxt: set<string>)
    requires s in ids
    requires "" !in aps
    ensures Holds(InitApItem(s, labels, ids, aps), now, nxt) <==> ApsFollow(ids[s], LabelOf(labels, s), aps, now)
  {
    var l := LabelOf(labels, s);
    SprintApsEmpty(l, aps);
    var tail := InitApItem(s, labels, ids, aps);
    if tail != [] {
      InitApClauseMeaning(ids[s], l, aps, now, nxt);
      assert Holds(tail, now, nxt) <==> Eval(tail[0], now, nxt);
    }
  }

  lemma {:induction false} InitApPropsMeaning(xs: seq<string>, labels: map<string, StateLabel>, ids: map<string, string>,
                                              aps: seq<string>, now: set<string>, nxt: set<string>)
    requires forall s | s in xs :: s in ids
    requires "" !in aps
    ensures Holds(InitApProps(xs, labels, ids, aps), now, nxt) <==>
            forall s | s in xs :: ApsFollow(ids[s], LabelOf(labels, s), aps, now)
  {
    if xs != [] {
      var s, front := xs[|xs| - 1], xs[..|xs| - 1];
      assert xs == front + [s];
      InitApPropsMeaning(front, labels, ids, aps, now, nxt);
      InitApItemMeaning(s, labels, ids, aps, now, nxt);
      HoldsAppend(InitApProps(front, labels, ids, aps), InitApItem(s, labels, ids, aps), now, nxt);
      if forall t | t in front :: ApsFollow(ids[t], LabelOf(labels, t), aps, now) {
        if ApsFollow(ids[s], LabelOf(labels, s), aps, now) {
          forall t | t in xs ensures ApsFollow(ids[t], LabelOf(labels, t), aps, now) {
            if t != s {
              assert t in front;
            }
          }
        }
      }
    }
  }

  /** With non-empty proposition names, the initial condition holds exactly when every
      initial state that holds carries its label's propositions and, unless the initial
      states are ignored, some initial state holds (never, when there is none). */
  lemma SysInitMeaning(initial: seq<string>, labels: map<string, StateLabel>, ids: map<string, string>,
                       aps: seq<string>, ignoreInitial: bool, now: set<string>, nxt: set<string>)
    requires forall s | s in initial :: s in ids
    requires "" !in aps
    ensures Holds(SysInitProps(initial, labels, ids, aps, ignoreInitial), now, nxt) <==>
            (forall s | s in initial :: ApsFollow(ids[s], LabelOf(labels, s), aps, now))
            && (!ignoreInitial ==> exists s | s in initial :: ids[s] in now)
  {
    InitApPropsMeaning(initial, labels, ids, aps, now, nxt);
    var head := InitApProps(initial, labels, ids, aps);
    if ignoreInitial {
      assert SysInitProps(initial, labels, ids, aps, ignoreInitial) == head;
    } else {
      assert SysInitProps(initial, labels, ids, aps, ignoreInitial) == head + SomeInitial(initial, ids);
      SomeInitialMeaning(initial, ids, now, nxt);
      HoldsAppend(head, SomeInitial(initial, ids), now, nxt);
    }
  }

  /** The last initial formula holds exactly when some initial state holds. */
  lemma SomeInitialMeaning(initial: seq<string>, ids: map<string, string>, now: set<string>, nxt: set<string>)
    requires forall s | s in initial :: s in ids
    ensures Holds(SomeInitial(initial, ids), now, nxt) <==> exists s | s in initial :: ids[s] in now
  {
    var tail := SomeInitial(initial, ids);
    assert Holds(tail, now, nxt) <==> Eval(tail[0], now, nxt);
    if initial != [] {
      var xs := IdsOf(initial, ids);
      EvalAnyParens(Atoms(xs), now, nxt);
      if exists s | s in initial :: ids[s] in now {
        var s :| s in initial && ids[s] in now;
        var i :| 0 <= i < |initial| && initial[i] == s;
        assert Eval(Atoms(xs)[i], now, nxt);
      }
    }
  }

  // ---------------------------------------------------------------------------
  // sys_trans_from_ts

  /** The disjunct of one transition: its target's id and its action ids, all read in
      the next state (the disjunction sits under `X`). */
  function SysEdgePost(e: Edge, ids: map<string, string>, actIds: Option<map<Symbol, string>>,
                       sysIds: Option<map<Symbol, string>>, envIds: Option<map<Symbol, string>>): Prop
    requires e.dst in ids
    requires LabelIdCovered(e.edgeLabel, Actions, actIds) && LabelIdCovered(e.edgeLabel, SysActions, sysIds)
    requires LabelIdCovered(e.edgeLabel, EnvActions, envIds)
  {
    var l := e.edgeLabel;
    AddAction(AddAction(AddAction(Paren(Atom(ids[e.dst])), l, EnvActions, false, envIds),
                        l, SysActions, false, sysIds),
              l, Actions, false, actIds)
  }

  function SysEdgePosts(out: seq<Edge>, ids: map<string, string>, actIds: Option<map<Symbol, string>>,
                        sysIds: Option<map<Symbol, string>>, envIds: Option<map<Symbol, string>>): (r: seq<Prop>)
    requires forall e | e in out :: e.dst in ids
    requires ActionIdsCover(out, Actions, actIds) && ActionIdsCover(out, SysActions, sysIds)
    requires ActionIdsCover(out, EnvActions, envIds)
    ensures |r| == |out|
    ensures forall i | 0 <= i < |out| :: r[i] == SysEdgePost(out[i], ids, actIds, sysIds, envIds)
  {
    seq(|out|, i requires 0 <= i < |out| => SysEdgePost(out[i], ids, actIds, sysIds, envIds))
  }

  /** `(id) -> X(False)` for a state without successors, `(id) -> X((post) || ...)`
      otherwise. */
  function SysTransClause(s: string, trans: seq<Edge>, ids: map<string, string>, actIds: Option<map<Symbol, string>>,
                          sysIds: Option<map<Symbol, string>>, envIds: Option<map<Symbol, string>>): Prop
    requires s in ids && forall e | e in trans :: e.dst in ids
    requires ActionIdsCover(trans, Actions, actIds) && ActionIdsCover(trans, SysActions, sysIds)
    requires ActionIdsCover(trans, EnvActions, envIds)
  {
    var out := OutEdges(trans, s);
    if out == [] then Implies(Paren(Atom(ids[s])), Next(false, Paren(Lit(false))))
    else Implies(Paren(Atom(ids[s])), Next(false, Paren(Any(Parens(SysEdgePosts(out, ids, actIds, sysIds, envIds))))))
  }

  function SysTransProps(states: seq<string>, trans: seq<Edge>, ids: map<string, string>, actIds: Option<map<Symbol, string>>,
                         sysIds: Option<map<Symbol, string>>, envIds: Option<map<Symbol, string>>): (r: seq<Prop>)
    requires StateIdsCover(states, trans, ids)
    requires ActionIdsCover(trans, Actions, actIds) && ActionIdsCover(trans, SysActions, sysIds)
    requires ActionIdsCover(trans, EnvActions, envIds)
    ensures |r| == |states|
    ensures forall i | 0 <= i < |states| :: r[i] == SysTransClause(states[i], trans, ids, actIds, sysIds, envIds)
  {
    seq(|states|, i requires 0 <= i < |states| => SysTransClause(states[i], trans, ids, actIds, sysIds, envIds))
  }

  lemma SysEdgePostShows(e: Edge, ids: map<string, string>, actIds: Option<map<Symbol, string>>,
                         sysIds: Option<map<Symbol, string>>, envIds: Option<map<Symbol, string>>)
    requires e.dst in ids
    requires LabelIdCovered(e.edgeLabel, Actions, actIds) && LabelIdCovered(e.edgeLabel, SysActions, sysIds)
    requires LabelIdCovered(e.edgeLabel, EnvActions, envIds)
    ensures Show(SysEdgePost(e, ids, actIds, sysIds, envIds)) ==
            Pstr(ids[e.dst]) + ConjAction(e.edgeLabel, EnvActions, false, envIds)
            + ConjAction(e.edgeLabel, SysActions, false, sysIds) + ConjAction(e.edgeLabel, Actions, false, actIds)
  {
    var l := e.edgeLabel;
    var p0 := Paren(Atom(ids[e.dst]));
    var p1 := AddAction(p0, l, EnvActions, false, envIds);
    var p2 := AddAction(p1, l, SysActions, false, sysIds);
    ShowNegParenAtom(ids[e.dst]);
    AddActionShows(p0, l, EnvActions, false, envIds);
    AddActionShows(p1, l, SysActions, false, sysIds);
    AddActionShows(p2, l, Actions, false, actIds);
  }

  lemma SysTransClauseShows(s: string, trans: seq<Edge>, ids: map<string, string>, actIds: Option<map<Symbol, string>>,
                            sysIds: Option<map<Symbol, string>>, envIds: Option<map<Symbol, string>>)
    requires s in ids && forall e | e in trans :: e.dst in ids
    requires ActionIdsCover(trans, Actions, actIds) && ActionIdsCover(trans, SysActions, sysIds)
    requires ActionIdsCover(trans, EnvActions, envIds)
    ensures var out := OutEdges(trans, s);
            Show(SysTransClause(s, trans, ids, actIds, sysIds, envIds)) ==
            if out == [] then Pstr(ids[s]) + " -> X(False)"
            else Pstr(ids[s]) + " -> X(" + Disj(ShowAll(SysEdgePosts(out, ids, actIds, sysIds, envIds))) + ")"
  {
    var out := OutEdges(trans, s);
    if out == [] {
      NextImplShows(ids[s], Lit(false));
    } else {
      var posts := SysEdgePosts(out, ids, actIds, sysIds, envIds);
      DisjShows(posts);
      NextImplShows(ids[s], Any(Parens(posts)));
    }
  }

  /** The inner loop of `sys_trans_from_ts`: the postcondition of each transition. */
  method SysPostconds(cur: seq<Edge>, stateIds: map<string, string>, actIds: Option<map<Symbol, string>>,
                      sysIds: Option<map<Symbol, string>>, envIds: Option<map<Symbol, string>>) returns (curStr: seq<string>)
    requires forall e | e in cur :: e.dst in stateIds
    requires ActionIdsCover(cur, Actions, actIds) && ActionIdsCover(cur, SysActions, sysIds)
    requires ActionIdsCover(cur, EnvActions, envIds)
    ensures curStr == ShowAll(SysEdgePosts(cur, stateIds, actIds, sysIds, envIds))
  {
    curStr := [];
    for j := 0 to |cur|
      invariant |curStr| == j
      invariant forall k | 0 <= k < j :: curStr[k] == Show(SysEdgePost(cur[k], stateIds, actIds, sysIds, envIds))
    {
      var e := cur[j];
      var lab := e.edgeLabel;
      var postcond := Pstr(stateIds[e.dst]);
      postcond := postcond + ConjAction(lab, EnvActions, false, envIds);
      postcond := postcond + ConjAction(lab, SysActions, false, sysIds);
      postcond := postcond + ConjAction(lab, Actions, false, actIds);
      SysEdgePostShows(e, stateIds, actIds, sysIds, envIds);
      curStr := curStr + [postcond];
    }
  }

  /** `sys_trans_from_ts(states, state_ids, trans, action_ids, sys_action_ids,
      env_action_ids)`: one formula per state. */
  method SysTransFromTs(states: seq<string>, stateIds: map<string, string>, trans: seq<Edge>,
                        actIds: Option<map<Symbol, string>>, sysIds: Option<map<Symbol, string>>,
                        envIds: Option<map<Symbol, string>>) returns (out: seq<string>)
    requires StateIdsCover(states, trans, stateIds)
    requires ActionIdsCover(trans, Actions, actIds) && ActionIdsCover(trans, SysActions, sysIds)
    requires ActionIdsCover(trans, EnvActions, envIds)
    ensures |out| == |states|
    ensures out == ShowAll(SysTransProps(states, trans, stateIds, actIds, sysIds, envIds))
  {
    out := [];
    for i := 0 to |states|
      invariant |out| == i
      invariant forall j | 0 <= j < i :: out[j] == Show(SysTransClause(states[j], trans, stateIds, actIds, sysIds, envIds))
    {
      var line := SysTransLine(states[i], trans, stateIds, actIds, sysIds, envIds);
      out := out + [line];
    }
  }

  /** One pass of the loop of `sys_trans_from_ts`: the formula of one state. */
  method SysTransLine(fromState: string, trans: seq<Edge>, stateIds: map<string, string>,
                      actIds: Option<map<Symbol, string>>, sysIds: Option<map<Symbol, string>>,
                      envIds: Option<map<Symbol, string>>) returns (line: string)
    requires fromState in stateIds && forall e | e in trans :: e.dst in stateIds
    requires ActionIdsCover(trans, Actions, actIds) && ActionIdsCover(trans, SysActions, sysIds)
    requires ActionIdsCover(trans, EnvActions, envIds)
    ensures line == Show(SysTransClause(fromState, trans, stateIds, actIds, sysIds, envIds))
  {
    var precond := Pstr(stateIds[fromState]);
    var cur := OutEdges(trans, fromState);
    SysTransClauseShows(fromState, trans, stateIds, actIds, sysIds, envIds);
    if cur == [] {
      line := precond + " -> X(False)";
    } else {
      var curStr := SysPostconds(cur, stateIds, actIds, sysIds, envIds);
      line := precond + " -> X(" + Disj(curStr) + ")";
    }
  }

  /** A transition is taken into `v`: its target and each of its action ids hold there. */
  predicate SysEdgeTaken(e: Edge, ids: map<string, string>, actIds: Option<map<Symbol, string>>,
                         sysIds: Option<map<Symbol, string>>, envIds: Option<map<Symbol, string>>, v: set<string>)
    requires e.dst in ids
    requires LabelIdCovered(e.edgeLabel, Actions, actIds) && LabelIdCovered(e.edgeLabel, SysActions, sysIds)
    requires LabelIdCovered(e.edgeLabel, EnvActions, envIds)
  {
    && ids[e.dst] in v
    && ActionHolds(e.edgeLabel, EnvActions, envIds, v)
    && ActionHolds(e.edgeLabel, SysActions, sysIds, v)
    && ActionHolds(e.edgeLabel, Actions, actIds, v)
  }

  lemma SysEdgePostMeaning(e: Edge, ids: map<string, string>, actIds: Option<map<Symbol, string>>,
                           sysIds: Option<map<Symbol, string>>, envIds: Option<map<Symbol, string>>, v: set<string>)
    requires e.dst in ids
    requires LabelIdCovered(e.edgeLabel, Actions, actIds) && LabelIdCovered(e.edgeLabel, SysActions, sysIds)
    requires LabelIdCovered(e.edgeLabel, EnvActions, envIds)
    ensures Eval(SysEdgePost(e, ids, actIds, sysIds, envIds), v, v) <==> SysEdgeTaken(e, ids, actIds, sysIds, envIds, v)
  {
    var l := e.edgeLabel;
    var p0 := Paren(Atom(ids[e.dst]));
    var p1 := AddAction(p0, l, EnvActions, false, envIds);
    var p2 := AddAction(p1, l, SysActions, false, sysIds);
    assert Eval(p0, v, v) == (ids[e.dst] in v);
    AddActionMeaning(p0, l, EnvActions, false, envIds, v, v);
    AddActionMeaning(p1, l, SysActions, false, sysIds, v, v);
    AddActionMeaning(p2, l, Actions, false, actIds, v, v);
  }

  /** The safety formula of a state: when the state holds, the next state is the target
      of one of its transitions, with that transition's actions; a state without
      transitions must never hold. */
  lemma SysTransClauseMeaning(s: string, trans: seq<Edge>, ids: map<string, string>, actIds: Option<map<Symbol, string>>,
                              sysIds: Option<map<Symbol, string>>, envIds: Option<map<Symbol, string>>,
                              now: set<string>, nxt: set<string>)
    requires s in ids && forall e | e in trans :: e.dst in ids
    requires ActionIdsCover(trans, Actions, actIds) && ActionIdsCover(trans, SysActions, sysIds)
    requires ActionIdsCover(trans, EnvActions, envIds)
    ensures Eval(SysTransClause(s, trans, ids, actIds, sysIds, envIds), now, nxt) <==>
            (ids[s] in now ==> exists e | e in OutEdges(trans, s) :: SysEdgeTaken(e, ids, actIds, sysIds, envIds, nxt))
  {
    var out := OutEdges(trans, s);
    if out == [] {
      NextImplEval(ids[s], Lit(false), now, nxt);
    } else {
      var posts := SysEdgePosts(out, ids, actIds, sysIds, envIds);
      NextImplEval(ids[s], Any(Parens(posts)), now, nxt);
      SysEdgePostsMeaning(out, ids, actIds, sysIds, envIds, nxt);
    }
  }

  /** The disjunction of the transitions holds in `v` exactly when one of them is taken. */
  lemma SysEdgePostsMeaning(out: seq<Edge>, ids: map<string, string>, actIds: Option<map<Symbol, string>>,
                            sysIds: Option<map<Symbol, string>>, envIds: Option<map<Symbol, string>>, v: set<string>)
    requires forall e | e in out :: e.dst in ids
    requires ActionIdsCover(out, Actions, actIds) && ActionIdsCover(out, SysActions, sysIds)
    requires ActionIdsCover(out, EnvActions, envIds)
    ensures Eval(Any(Parens(SysEdgePosts(out, ids, actIds, sysIds, envIds))), v, v) <==>
            exists e | e in out :: SysEdgeTaken(e, ids, actIds, sysIds, envIds, v)
  {
    var posts := SysEdgePosts(out, ids, actIds, sysIds, envIds);
    EvalAnyParens(posts, v, v);
    forall i | 0 <= i < |out|
      ensures Eval(posts[i], v, v) <==> SysEdgeTaken(out[i], ids, actIds, sysIds, envIds, v)
    {
      SysEdgePostMeaning(out[i], ids, actIds, sysIds, envIds, v);
    }
    if exists e | e in out :: SysEdgeTaken(e, ids, actIds, sysIds, envIds, v) {
      var e :| e in out && SysEdgeTaken(e, ids, actIds, sysIds, envIds, v);
      var i :| 0 <= i < |out| && out[i] == e;
      assert Eval(posts[i], v, v);
    }
  }

  // ---------------------------------------------------------------------------
  // env_trans_from_sys_ts

  /** The ids of the environment actions on the given transitions, each once, in the
      order of first appearance (the source collects them in a set). */
  function EnvIdsOf(out: seq<Edge>, ids: map<Symbol, string>): seq<string>
    requires ActionIdsCover(out, EnvActions, Some(ids))
  {
    if out == [] then []
    else
      var front := EnvIdsOf(out[..|out| - 1], ids);
      var l := out[|out| - 1].edgeLabel;
      if l.envActions.None? || ids[l.envActions.value] in front then front
      else front + [ids[l.envActions.value]]
  }

  /** An id is collected exactly when some transition carries an environment action
      with that id. */
  lemma {:induction false} EnvIdsOfMember(out: seq<Edge>, ids: map<Symbol, string>, x: string)
    requires ActionIdsCover(out, EnvActions, Some(ids))
    ensures x in EnvIdsOf(out, ids) <==>
            exists e | e in out :: e.edgeLabel.envActions.Some? && ids[e.edgeLabel.envActions.value] == x
  {
    if out != [] {
      var front := out[..|out| - 1];
      var last := out[|out| - 1];
      EnvIdsOfMember(front, ids, x);
      assert out == front + [last];
      if x in EnvIdsOf(front, ids) {
        var e :| e in front && e.edgeLabel.envActions.Some? && ids[e.edgeLabel.envActions.value] == x;
        assert e in out;
      }
    }
  }

  /** Each collected id appears once, as in the source's set. */
  lemma {:induction false} EnvIdsOfNoDup(out: seq<Edge>, ids: map<Symbol, string>)
    requires ActionIdsCover(out, EnvActions, Some(ids))
    ensures NoDup(EnvIdsOf(out, ids))
  {
    if out != [] {
      EnvIdsOfNoDup(out[..|out| - 1], ids);
    }
  }

  /** No environment actions: no formula. Otherwise, for a state without transitions
      `(id) -> X(!(a) && ...)` over all environment action ids, and
      `(id) -> X((a) || ...)` over the ids on its transitions for the others. */
  function EnvFromSysClause(s: string, trans: seq<Edge>, ids: map<string, string>, envIds: map<Symbol, string>,
                            envValues: seq<string>): Prop
    requires s in ids && ActionIdsCover(trans, EnvActions, Some(envIds))
  {
    var out := OutEdges(trans, s);
    if out == [] then Implies(Paren(Atom(ids[s])), Next(false, Paren(All(NegAtoms(envValues, true)))))
    else Implies(Paren(Atom(ids[s])), Next(false, Paren(Any(Parens(Atoms(EnvIdsOf(out, envIds)))))))
  }

  /** Whether the id dictionary is empty or absent (`not env_action_ids`). */
  predicate NoIds(ids: Option<map<Symbol, string>>) {
    ids.None? || |ids.value| == 0
  }

  function EnvFromSysProps(states: seq<string>, trans: seq<Edge>, ids: map<string, string>,
                           envIds: Option<map<Symbol, string>>, envOrder: seq<Symbol>): (r: seq<Prop>)
    requires forall s | s in states :: s in ids
    requires ActionIdsCover(trans, EnvActions, envIds)
    requires envIds.Some? ==> forall a | a in envOrder :: a in envIds.value
    ensures NoIds(envIds) ==> r == []
    ensures !NoIds(envIds) ==> |r| == |states|
  {
    if NoIds(envIds) then []
    else
      var values := IdsOf(envOrder, envIds.value);
      seq(|states|, i requires 0 <= i < |states| => EnvFromSysClause(states[i], trans, ids, envIds.value, values))
  }

  lemma EnvFromSysClauseShows(s: string, trans: seq<Edge>, ids: map<string, string>, envIds: map<Symbol, string>,
                              envValues: seq<string>)
    requires s in ids && ActionIdsCover(trans, EnvActions, Some(envIds))
    ensures OutEdges(trans, s) == [] ==>
            Show(EnvFromSysClause(s, trans, ids, envIds, envValues)) == Pstr(ids[s]) + " -> X(" + ConjNeg(envValues, true) + ")"
    ensures OutEdges(trans, s) != [] ==>
            Show(EnvFromSysClause(s, trans, ids, envIds, envValues)) ==
            Pstr(ids[s]) + " -> X(" + Disj(EnvIdsOf(OutEdges(trans, s), envIds)) + ")"
  {
    if OutEdges(trans, s) == [] {
      ConjNegShows(envValues, true);
      NextImplShows(ids[s], All(NegAtoms(envValues, true)));
    } else {
      var xs := EnvIdsOf(OutEdges(trans, s), envIds);
      DisjShows(Atoms(xs));
      ShowAllAtoms(xs);
      NextImplShows(ids[s], Any(Parens(Atoms(xs))));
    }
  }

  lemma NextImplEval(id: string, body: Prop, now: set<string>, nxt: set<string>)
    ensures Eval(Implies(Paren(Atom(id)), Next(false, Paren(body))), now, nxt) <==> (id in now ==> Eval(body, nxt, nxt))
  {
    assert Eval(Paren(Atom(id)), now, nxt) == (id in now);
    assert Eval(Next(false, Paren(body)), now, nxt) == Eval(body, nxt, nxt);
  }

  /** The shape `(id) -> X(body)` shared by the safety formulas. */
  lemma NextImplShows(id: string, body: Prop)
    ensures Show(Implies(Paren(Atom(id)), Next(false, Paren(body)))) == Pstr(id) + " -> X(" + Show(body) + ")"
  {
    assert Show(Paren(Atom(id))) == Pstr(id);
    assert Show(Next(false, Paren(body))) == "X" + ("(" + Show(body) + ")");
  }

  /** The inner loop of `env_trans_from_sys_ts`: the ids of the environment actions on
      the transitions, collected without repetition. */
  method NextEnvActions(cur: seq<Edge>, ids: map<Symbol, string>) returns (nextEnvActions: seq<string>)
    requires ActionIdsCover(cur, EnvActions, Some(ids))
    ensures nextEnvActions == EnvIdsOf(cur, ids)
  {
    nextEnvActions := [];
    for j := 0 to |cur|
      invariant nextEnvActions == EnvIdsOf(cur[..j], ids)
    {
      var lab := cur[j].edgeLabel;
      assert cur[..j + 1][..j] == cur[..j];
      if lab.envActions.Some? {
        var envActionId := ids[lab.envActions.value];
        if envActionId !in nextEnvActions {
          nextEnvActions := nextEnvActions + [envActionId];
        }
      }
    }
    assert cur[..|cur|] == cur;
  }

  /** `env_trans_from_sys_ts(states, state_ids, trans, env_action_ids)`; the values of
      the id dictionary are listed in the order of `envOrder`. */
  method EnvTransFromSysTs(states: seq<string>, stateIds: map<string, string>, trans: seq<Edge>,
                           envIds: Option<map<Symbol, string>>, envOrder: seq<Symbol>) returns (out: seq<string>)
    requires forall s | s in states :: s in stateIds
    requires ActionIdsCover(trans, EnvActions, envIds)
    requires envIds.Some? ==> forall a | a in envOrder :: a in envIds.value
    ensures out == ShowAll(EnvFromSysProps(states, trans, stateIds, envIds, envOrder))
  {
    out := [];
    if NoIds(envIds) {
      return;
    }
    var ids := envIds.value;
    var values := IdsOf(envOrder, ids);
    for i := 0 to |states|
      invariant |out| == i
      invariant forall j | 0 <= j < i :: out[j] == Show(EnvFromSysClause(states[j], trans, stateIds, ids, values))
    {
      var fromState := states[i];
      var precond := Pstr(stateIds[fromState]);
      var cur := OutEdges(trans, fromState);
      EnvFromSysClauseShows(fromState, trans, stateIds, ids, values);
      if cur == [] {
        out := out + [precond + " -> X(" + ConjNeg(values, true) + ")"];
      } else {
        var nextEnvActions := NextEnvActions(cur, ids);
        out := out + [precond + " -> X(" + Disj(nextEnvActions) + ")"];
      }
    }
  }

  /** With environment actions, a state with transitions lets the environment choose
      next only among the actions on its transitions, and a state without transitions
      leaves it none. */
  lemma EnvFromSysClauseMeaning(s: string, trans: seq<Edge>, ids: map<string, string>, envIds: map<Symbol, string>,
                                envValues: seq<string>, now: set<string>, nxt: set<string>)
    requires s in ids && ActionIdsCover(trans, EnvActions, Some(envIds))
    ensures OutEdges(trans, s) == [] ==>
            (Eval(EnvFromSysClause(s, trans, ids, envIds, envValues), now, nxt) <==>
             (ids[s] in now ==> forall x | x in envValues :: x !in nxt))
    ensures OutEdges(trans, s) != [] ==>
            (Eval(EnvFromSysClause(s, trans, ids, envIds, envValues), now, nxt) <==>
             (ids[s] in now ==>
                exists e | e in OutEdges(trans, s) ::
                  e.edgeLabel.envActions.Some? && envIds[e.edgeLabel.envActions.value] in nxt))
  {
    var out := OutEdges(trans, s);
    assert Eval(Paren(Atom(ids[s])), now, nxt) == (ids[s] in now);
    if out == [] {
      EvalNegAtoms(envValues, true, nxt, nxt);
      NextImplEval(ids[s], All(NegAtoms(envValues, true)), now, nxt);
    } else {
      NextImplEval(ids[s], Any(Parens(Atoms(EnvIdsOf(out, envIds)))), now, nxt);
      SomeEnvIdMeaning(out, envIds, nxt);
    }
  }

  /** The disjunction of the environment action ids of some transitions holds exactly
      when one of those actions is taken. */
  lemma SomeEnvIdMeaning(out: seq<Edge>, envIds: map<Symbol, string>, nxt: set<string>)
    requires ActionIdsCover(out, EnvActions, Some(envIds))
    ensures Eval(Any(Parens(Atoms(EnvIdsOf(out, envIds)))), nxt, nxt) <==>
            exists e | e in out :: e.edgeLabel.envActions.Some? && envIds[e.edgeLabel.envActions.value] in nxt
  {
    var xs := EnvIdsOf(out, envIds);
    EvalAnyParens(Atoms(xs), nxt, nxt);
    if exists e | e in out :: e.edgeLabel.envActions.Some? && envIds[e.edgeLabel.envActions.value] in nxt {
      var e :| e in out && e.edgeLabel.envActions.Some? && envIds[e.edgeLabel.envActions.value] in nxt;
      EnvIdsOfMember(out, envIds, envIds[e.edgeLabel.envActions.value]);
      var i :| 0 <= i < |xs| && xs[i] == envIds[e.edgeLabel.envActions.value];
      assert Eval(Atoms(xs)[i], nxt, nxt);
    }
    if Eval(Any(Parens(Atoms(xs))), nxt, nxt) {
      var i :| 0 <= i < |xs| && Eval(Atoms(xs)[i], nxt, nxt);
      EnvIdsOfMember(out, envIds, xs[i]);
    }
  }

  /** When no transition of a state carries an environment action, its formula is
      `(id) -> X()`, whose disjunction is empty. */
  lemma EnvFromSysEmptyNext(s: string, trans: seq<Edge>, ids: map<string, string>, envIds: map<Symbol, string>,
                            envValues: seq<string>)
    requires s in ids && ActionIdsCover(trans, EnvActions, Some(envIds))
    requires OutEdges(trans, s) != []
    requires forall e | e in OutEdges(trans, s) :: e.edgeLabel.envActions.None?
    ensures Show(EnvFromSysClause(s, trans, ids, envIds, envValues)) == Pstr(ids[s]) + " -> X()"
  {
    EnvFromSysClauseShows(s, trans, ids, envIds, envValues);
    var out := OutEdges(trans, s);
    var xs := EnvIdsOf(out, envIds);
    if xs != [] {
      EnvIdsOfMember(out, envIds, xs[0]);
    }
  }

  // ---------------------------------------------------------------------------
  // env_trans_from_env_ts

  /** The disjunct of one transition of the environment: `(X(target) && X(env action)
      && X(action) && (sys action))`; the system action is the one output previously. */
  function EnvEdgePost(e: Edge, ids: map<string, string>, actIds: Option<map<Symbol, string>>,
                       envIds: Option<map<Symbol, string>>, sysIds: Option<map<Symbol, string>>): Prop
    requires e.dst in ids
    requires LabelIdCovered(e.edgeLabel, Actions, actIds) && LabelIdCovered(e.edgeLabel, SysActions, sysIds)
    requires LabelIdCovered(e.edgeLabel, EnvActions, envIds)
  {
    var l := e.edgeLabel;
    Paren(AddAction(AddAction(AddAction(Next(false, Paren(Atom(ids[e.dst]))), l, EnvActions, true, envIds),
                              l, Actions, true, actIds),
                    l, SysActions, false, sysIds))
  }

  function EnvEdgePosts(out: seq<Edge>, ids: map<string, string>, actIds: Option<map<Symbol, string>>,
                        envIds: Option<map<Symbol, string>>, sysIds: Option<map<Symbol, string>>): (r: seq<Prop>)
    requires forall e | e in out :: e.dst in ids
    requires ActionIdsCover(out, Actions, actIds) && ActionIdsCover(out, SysActions, sysIds)
    requires ActionIdsCover(out, EnvActions, envIds)
    ensures |r| == |out|
    ensures forall i | 0 <= i < |out| :: r[i] == EnvEdgePost(out[i], ids, actIds, envIds, sysIds)
  {
    seq(|out|, i requires 0 <= i < |out| => EnvEdgePost(out[i], ids, actIds, envIds, sysIds))
  }

  /** Some transition of `out` carries no system action (`found_free`). */
  predicate SomeFree(out: seq<Edge>, sysIds: Option<map<Symbol, string>>)
    requires ActionIdsCover(out, SysActions, sysIds)
  {
    exists e | e in out :: ActionText(e.edgeLabel, SysActions, sysIds).None?
  }

  /** The extra disjunct `!(a) && ...` over the system action ids is added exactly when
      every transition of the state waits for a system action and there are system
      action ids. */
  predicate NeedsEscape(out: seq<Edge>, sysIds: Option<map<Symbol, string>>)
    requires ActionIdsCover(out, SysActions, sysIds)
  {
    !SomeFree(out, sysIds) && !NoIds(sysIds)
  }

  function EnvEnvItems(out: seq<Edge>, ids: map<string, string>, actIds: Option<map<Symbol, string>>,
                       envIds: Option<map<Symbol, string>>, sysIds: Option<map<Symbol, string>>,
                       sysValues: seq<string>): seq<Prop>
    requires forall e | e in out :: e.dst in ids
    requires ActionIdsCover(out, Actions, actIds) && ActionIdsCover(out, SysActions, sysIds)
    requires ActionIdsCover(out, EnvActions, envIds)
  {
    EnvEdgePosts(out, ids, actIds, envIds, sysIds)
      + (if NeedsEscape(out, sysIds) then [All(NegAtoms(sysValues, true))] else [])
  }

  /** `(id) -> X(False)` for a dead end, `((id)) -> ((post) || ...)` otherwise. */
  function EnvEnvClause(s: string, trans: seq<Edge>, ids: map<string, string>, actIds: Option<map<Symbol, string>>,
                        envIds: Option<map<Symbol, string>>, sysIds: Option<map<Symbol, string>>,
                        sysValues: seq<string>): Prop
    requires s in ids && forall e | e in trans :: e.dst in ids
    requires ActionIdsCover(trans, Actions, actIds) && ActionIdsCover(trans, SysActions, sysIds)
    requires ActionIdsCover(trans, EnvActions, envIds)
  {
    var out := OutEdges(trans, s);
    if out == [] then Implies(Paren(Atom(ids[s])), Next(false, Paren(Lit(false))))
    else Implies(Paren(Paren(Atom(ids[s]))), Paren(Any(Parens(EnvEnvItems(out, ids, actIds, envIds, sysIds, sysValues)))))
  }

  /** The values of an optional id dictionary, in the order of `order`. */
  function ValuesOf(ids: Option<map<Symbol, string>>, order: seq<Symbol>): seq<string>
    requires ids.Some? ==> forall a | a in order :: a in ids.value
  {
    if ids.None? then [] else IdsOf(order, ids.value)
  }

  function EnvEnvProps(states: seq<string>, trans: seq<Edge>, ids: map<string, string>, actIds: Option<map<Symbol, string>>,
                       envIds: Option<map<Symbol, string>>, sysIds: Option<map<Symbol, string>>,
                       sysOrder: seq<Symbol>): (r: seq<Prop>)
    requires StateIdsCover(states, trans, ids)
    requires ActionIdsCover(trans, Actions, actIds) && ActionIdsCover(trans, SysActions, sysIds)
    requires ActionIdsCover(trans, EnvActions, envIds)
    requires sysIds.Some? ==> forall a | a in sysOrder :: a in sysIds.value
    ensures |r| == |states|
    ensures forall i | 0 <= i < |states| ::
              r[i] == EnvEnvClause(states[i], trans, ids, actIds, envIds, sysIds, ValuesOf(sysIds, sysOrder))
  {
    seq(|states|, i requires 0 <= i < |states| =>
      EnvEnvClause(states[i], trans, ids, actIds, envIds, sysIds, ValuesOf(sysIds, sysOrder)))
  }

  lemma EnvEdgePostShows(e: Edge, ids: map<string, string>, actIds: Option<map<Symbol, string>>,
                         envIds: Option<map<Symbol, string>>, sysIds: Option<map<Symbol, string>>)
    requires e.dst in ids
    requires LabelIdCovered(e.edgeLabel, Actions, actIds) && LabelIdCovered(e.edgeLabel, SysActions, sysIds)
    requires LabelIdCovered(e.edgeLabel, EnvActions, envIds)
    ensures Show(EnvEdgePost(e, ids, actIds, envIds, sysIds)) ==
            Pstr("X" + Pstr(ids[e.dst]) + ConjAction(e.edgeLabel, EnvActions, true, envIds)
                 + ConjAction(e.edgeLabel, Actions, true, actIds) + ConjAction(e.edgeLabel, SysActions, false, sysIds))
  {
    var l := e.edgeLabel;
    var p0 := Next(false, Paren(Atom(ids[e.dst])));
    var p1 := AddAction(p0, l, EnvActions, true, envIds);
    var p2 := AddAction(p1, l, Actions, true, actIds);
    ShowNegParenAtom(ids[e.dst]);
    assert Show(p0) == "X" + Pstr(ids[e.dst]);
    AddActionShows(p0, l, EnvActions, true, envIds);
    AddActionShows(p1, l, Actions, true, actIds);
    AddActionShows(p2, l, SysActions, false, sysIds);
  }

  lemma GuardAnyShows(id: string, items: seq<Prop>)
    ensures Show(Implies(Paren(Paren(Atom(id))), Paren(Any(Parens(items))))) ==
            Pstr(Pstr(id)) + " -> (" + Disj(ShowAll(items)) + ")"
  {
    DisjShows(items);
    ShowNegParenAtom(id);
    assert Show(Paren(Paren(Atom(id)))) == Pstr(Pstr(id));
  }

  lemma GuardAnyEval(id: string, items: seq<Prop>, now: set<string>, nxt: set<string>)
    ensures Eval(Implies(Paren(Paren(Atom(id))), Paren(Any(Parens(items)))), now, nxt) <==>
            (id in now ==> Eval(Any(Parens(items)), now, nxt))
  {
    assert Eval(Paren(Atom(id)), now, nxt) == (id in now);
    assert Eval(Paren(Paren(Atom(id))), now, nxt) == (id in now);
  }

  lemma EnvEnvClauseShows(s: string, trans: seq<Edge>, ids: map<string, string>, actIds: Option<map<Symbol, string>>,
                          envIds: Option<map<Symbol, string>>, sysIds: Option<map<Symbol, string>>,
                          sysValues: seq<string>)
    requires s in ids && forall e | e in trans :: e.dst in ids
    requires ActionIdsCover(trans, Actions, actIds) && ActionIdsCover(trans, SysActions, sysIds)
    requires ActionIdsCover(trans, EnvActions, envIds)
    ensures OutEdges(trans, s) == [] ==>
              Show(EnvEnvClause(s, trans, ids, actIds, envIds, sysIds, sysValues)) == Pstr(ids[s]) + " -> X(False)"
    ensures OutEdges(trans, s) != [] ==>
              Show(EnvEnvClause(s, trans, ids, actIds, envIds, sysIds, sysValues)) ==
              Pstr(Pstr(ids[s])) + " -> ("
                + Disj(ShowAll(EnvEnvItems(OutEdges(trans, s), ids, actIds, envIds, sysIds, sysValues))) + ")"
  {
    var out := OutEdges(trans, s);
    if out == [] {
      NextImplShows(ids[s], Lit(false));
    } else {
      GuardAnyShows(ids[s], EnvEnvItems(out, ids, actIds, envIds, sysIds, sysValues));
    }
  }

  lemma SomeFreeSnoc(front: seq<Edge>, e: Edge, sysIds: Option<map<Symbol, string>>)
    requires ActionIdsCover(front + [e], SysActions, sysIds)
    ensures ActionIdsCover(front, SysActions, sysIds)
    ensures SomeFree(front + [e], sysIds) <==> SomeFree(front, sysIds) || ActionText(e.edgeLabel, SysActions, sysIds).None?
  {
    assert forall x | x in front :: x in front + [e];
    if SomeFree(front + [e], sysIds) {
      var x :| x in front + [e] && ActionText(x.edgeLabel, SysActions, sysIds).None?;
      if x != e {
        assert x in front;
      }
    }
    if ActionText(e.edgeLabel, SysActions, sysIds).None? {
      assert e in front + [e];
    }
  }

  /** The disjunct of one transition in `env_trans_from_env_ts`, and whether it waits
      for no system action. */
  method EnvPostcond(e: Edge, stateIds: map<string, string>, actIds: Option<map<Symbol, string>>,
                     envIds: Option<map<Symbol, string>>, sysIds: Option<map<Symbol, string>>)
    returns (text: string, free: bool)
    requires e.dst in stateIds
    requires LabelIdCovered(e.edgeLabel, Actions, actIds) && LabelIdCovered(e.edgeLabel, SysActions, sysIds)
    requires LabelIdCovered(e.edgeLabel, EnvActions, envIds)
    ensures text == Show(EnvEdgePost(e, stateIds, actIds, envIds, sysIds))
    ensures free <==> ActionText(e.edgeLabel, SysActions, sysIds).None?
  {
    var lab := e.edgeLabel;
    var postcond := "X" + Pstr(stateIds[e.dst]);
    postcond := postcond + ConjAction(lab, EnvActions, true, envIds);
    postcond := postcond + ConjAction(lab, Actions, true, actIds);
    postcond := postcond + ConjAction(lab, SysActions, false, sysIds);
    EnvEdgePostShows(e, stateIds, actIds, envIds, sysIds);
    AddActionShows(Lit(true), lab, SysActions, false, sysIds);
    free := ConjAction(lab, SysActions, false, sysIds) == "";
    text := Pstr(postcond);
  }

  /** The inner loop of `env_trans_from_env_ts`: the disjunct of each transition, and
      whether one of them waits for no system action. */
  method EnvPostconds(cur: seq<Edge>, stateIds: map<string, string>, actIds: Option<map<Symbol, string>>,
                      envIds: Option<map<Symbol, string>>, sysIds: Option<map<Symbol, string>>)
    returns (curList: seq<string>, foundFree: bool)
    requires forall e | e in cur :: e.dst in stateIds
    requires ActionIdsCover(cur, Actions, actIds) && ActionIdsCover(cur, SysActions, sysIds)
    requires ActionIdsCover(cur, EnvActions, envIds)
    ensures curList == ShowAll(EnvEdgePosts(cur, stateIds, actIds, envIds, sysIds))
    ensures foundFree <==> SomeFree(cur, sysIds)
  {
    curList := [];
    foundFree := false;
    for j := 0 to |cur|
      invariant |curList| == j
      invariant forall k | 0 <= k < j :: curList[k] == Show(EnvEdgePost(cur[k], stateIds, actIds, envIds, sysIds))
      invariant foundFree <==> SomeFree(cur[..j], sysIds)
    {
      var e := cur[j];
      var postcond, free := EnvPostcond(e, stateIds, actIds, envIds, sysIds);
      assert cur[..j + 1] == cur[..j] + [e];
      SomeFreeSnoc(cur[..j], e, sysIds);
      if free {
        foundFree := true;
      }
      curList := curList + [postcond];
    }
    assert cur[..|cur|] == cur;
  }

  /** `env_trans_from_env_ts(states, state_ids, trans, action_ids, env_action_ids,
      sys_action_ids)`: one formula per state; the values of the system action ids are
      listed in the order of `sysOrder`. */
  method EnvTransFromEnvTs(states: seq<string>, stateIds: map<string, string>, trans: seq<Edge>,
                           actIds: Option<map<Symbol, string>>, envIds: Option<map<Symbol, string>>,
                           sysIds: Option<map<Symbol, string>>, sysOrder: seq<Symbol>) returns (out: seq<string>)
    requires StateIdsCover(states, trans, stateIds)
    requires ActionIdsCover(trans, Actions, actIds) && ActionIdsCover(trans, SysActions, sysIds)
    requires ActionIdsCover(trans, EnvActions, envIds)
    requires sysIds.Some? ==> forall a | a in sysOrder :: a in sysIds.value
    ensures |out| == |states|
    ensures out == ShowAll(EnvEnvProps(states, trans, stateIds, actIds, envIds, sysIds, sysOrder))
  {
    var sysValues := ValuesOf(sysIds, sysOrder);
    out := [];
    for i := 0 to |states|
      invariant |out| == i
      invariant forall j | 0 <= j < i :: out[j] == Show(EnvEnvClause(states[j], trans, stateIds, actIds, envIds, sysIds, sysValues))
    {
      var line := EnvTransLine(states[i], trans, stateIds, actIds, envIds, sysIds, sysValues);
      out := out + [line];
    }
  }

  /** One pass of the loop of `env_trans_from_env_ts`: the formula of one state. */
  method EnvTransLine(fromState: string, trans: seq<Edge>, stateIds: map<string, string>,
                      actIds: Option<map<Symbol, string>>, envIds: Option<map<Symbol, string>>,
                      sysIds: Option<map<Symbol, string>>, sysValues: seq<string>) returns (line: string)
    requires fromState in stateIds && forall e | e in trans :: e.dst in stateIds
    requires ActionIdsCover(trans, Actions, actIds) && ActionIdsCover(trans, SysActions, sysIds)
    requires ActionIdsCover(trans, EnvActions, envIds)
    ensures line == Show(EnvEnvClause(fromState, trans, stateIds, actIds, envIds, sysIds, sysValues))
  {
    var precond := Pstr(stateIds[fromState]);
    var cur := OutEdges(trans, fromState);
    EnvEnvClauseShows(fromState, trans, stateIds, actIds, envIds, sysIds, sysValues);
    if cur == [] {
      line := precond + " -> X(False)";
    } else {
      var curList, foundFree := EnvPostconds(cur, stateIds, actIds, envIds, sysIds);
      EnvItemsShows(cur, stateIds, actIds, envIds, sysIds, sysValues);
      if !foundFree && !NoIds(sysIds) {
        curList := curList + [ConjNeg(sysValues, true)];
      }
      assert curList == ShowAll(EnvEnvItems(cur, stateIds, actIds, envIds, sysIds, sysValues));
      line := Pstr(precond) + " -> (" + Disj(curList) + ")";
    }
  }

  lemma EnvItemsShows(out: seq<Edge>, ids: map<string, string>, actIds: Option<map<Symbol, string>>,
                      envIds: Option<map<Symbol, string>>, sysIds: Option<map<Symbol, string>>,
                      sysValues: seq<string>)
    requires forall e | e in out :: e.dst in ids
    requires ActionIdsCover(out, Actions, actIds) && ActionIdsCover(out, SysActions, sysIds)
    requires ActionIdsCover(out, EnvActions, envIds)
    ensures ShowAll(EnvEnvItems(out, ids, actIds, envIds, sysIds, sysValues)) ==
            ShowAll(EnvEdgePosts(out, ids, actIds, envIds, sysIds))
              + (if NeedsEscape(out, sysIds) then [ConjNeg(sysValues, true)] else [])
  {
    var posts := EnvEdgePosts(out, ids, actIds, envIds, sysIds);
    if NeedsEscape(out, sysIds) {
      ConjNegShows(sysValues, true);
      ShowAllAppend(posts, [All(NegAtoms(sysValues, true))]);
    } else {
      assert EnvEnvItems(out, ids, actIds, envIds, sysIds, sysValues) == posts + [];
    }
  }

  /** Transition `e` of the environment is taken from `now` to `nxt`: the target state
      and the environment's own actions hold next, the system action it waits for holds
      now. */
  predicate EnvEdgeTaken(e: Edge, ids: map<string, string>, actIds: Option<map<Symbol, string>>,
                         envIds: Option<map<Symbol, string>>, sysIds: Option<map<Symbol, string>>,
                         now: set<string>, nxt: set<string>)
    requires e.dst in ids
    requires LabelIdCovered(e.edgeLabel, Actions, actIds) && LabelIdCovered(e.edgeLabel, SysActions, sysIds)
    requires LabelIdCovered(e.edgeLabel, EnvActions, envIds)
  {
    ids[e.dst] in nxt && ActionHolds(e.edgeLabel, EnvActions, envIds, nxt)
    && ActionHolds(e.edgeLabel, Actions, actIds, nxt) && ActionHolds(e.edgeLabel, SysActions, sysIds, now)
  }

  lemma EnvEdgePostMeaning(e: Edge, ids: map<string, string>, actIds: Option<map<Symbol, string>>,
                           envIds: Option<map<Symbol, string>>, sysIds: Option<map<Symbol, string>>,
                           now: set<string>, nxt: set<string>)
    requires e.dst in ids
    requires LabelIdCovered(e.edgeLabel, Actions, actIds) && LabelIdCovered(e.edgeLabel, SysActions, sysIds)
    requires LabelIdCovered(e.edgeLabel, EnvActions, envIds)
    ensures Eval(EnvEdgePost(e, ids, actIds, envIds, sysIds), now, nxt) <==>
            EnvEdgeTaken(e, ids, actIds, envIds, sysIds, now, nxt)
  {
    var l := e.edgeLabel;
    var p0 := Next(false, Paren(Atom(ids[e.dst])));
    var p1 := AddAction(p0, l, EnvActions, true, envIds);
    var p2 := AddAction(p1, l, Actions, true, actIds);
    assert Eval(Paren(Atom(ids[e.dst])), nxt, nxt) == (ids[e.dst] in nxt);
    assert Eval(p0, now, nxt) == (ids[e.dst] in nxt);
    AddActionMeaning(p0, l, EnvActions, true, envIds, now, nxt);
    AddActionMeaning(p1, l, Actions, true, actIds, now, nxt);
    AddActionMeaning(p2, l, SysActions, false, sysIds, now, nxt);
  }

  /** The disjunction of a live state: one of its transitions is taken, or the extra
      disjunct applies and no system action holds now. */
  lemma EnvEnvItemsMeaning(out: seq<Edge>, ids: map<string, string>, actIds: Option<map<Symbol, string>>,
                           envIds: Option<map<Symbol, string>>, sysIds: Option<map<Symbol, string>>,
                           sysValues: seq<string>, now: set<string>, nxt: set<string>)
    requires forall e | e in out :: e.dst in ids
    requires ActionIdsCover(out, Actions, actIds) && ActionIdsCover(out, SysActions, sysIds)
    requires ActionIdsCover(out, EnvActions, envIds)
    ensures Eval(Any(Parens(EnvEnvItems(out, ids, actIds, envIds, sysIds, sysValues))), now, nxt) <==>
            (exists e | e in out :: EnvEdgeTaken(e, ids, actIds, envIds, sysIds, now, nxt))
            || (NeedsEscape(out, sysIds) && forall x | x in sysValues :: x !in now)
  {
    var posts := EnvEdgePosts(out, ids, actIds, envIds, sysIds);
    var items := EnvEnvItems(out, ids, actIds, envIds, sysIds, sysValues);
    EvalAnyParens(items, now, nxt);
    forall i | 0 <= i < |out|
      ensures Eval(items[i], now, nxt) <==> EnvEdgeTaken(out[i], ids, actIds, envIds, sysIds, now, nxt)
    {
      EnvEdgePostMeaning(out[i], ids, actIds, envIds, sysIds, now, nxt);
    }
    if NeedsEscape(out, sysIds) {
      assert items[|out|] == All(NegAtoms(sysValues, true));
      EvalNegAtoms(sysValues, true, now, nxt);
    }
    if exists e | e in out :: EnvEdgeTaken(e, ids, actIds, envIds, sysIds, now, nxt) {
      var e :| e in out && EnvEdgeTaken(e, ids, actIds, envIds, sysIds, now, nxt);
      var i :| 0 <= i < |out| && out[i] == e;
      assert Eval(items[i], now, nxt);
    }
  }

  /** The assumption of `env_trans_from_env_ts` for a state: when the state holds, one of
      its transitions is taken, or the state has transitions, each waits for a system
      action, there are system action ids and none of them holds now; a state without
      transitions must never hold. */
  lemma EnvEnvClauseMeaning(s: string, trans: seq<Edge>, ids: map<string, string>, actIds: Option<map<Symbol, string>>,
                            envIds: Option<map<Symbol, string>>, sysIds: Option<map<Symbol, string>>,
                            sysValues: seq<string>, now: set<string>, nxt: set<string>)
    requires s in ids && forall e | e in trans :: e.dst in ids
    requires ActionIdsCover(trans, Actions, actIds) && ActionIdsCover(trans, SysActions, sysIds)
    requires ActionIdsCover(trans, EnvActions, envIds)
    ensures Eval(EnvEnvClause(s, trans, ids, actIds, envIds, sysIds, sysValues), now, nxt) <==>
            (ids[s] in now ==>
               (exists e | e in OutEdges(trans, s) :: EnvEdgeTaken(e, ids, actIds, envIds, sysIds, now, nxt))
               || (OutEdges(trans, s) != [] && NeedsEscape(OutEdges(trans, s), sysIds)
                   && forall x | x in sysValues :: x !in now))
  {
    var out := OutEdges(trans, s);
    if out == [] {
      NextImplEval(ids[s], Lit(false), now, nxt);
    } else {
      var items := EnvEnvItems(out, ids, actIds, envIds, sysIds, sysValues);
      GuardAnyEval(ids[s], items, now, nxt);
      EnvEnvItemsMeaning(out, ids, actIds, envIds, sysIds, sysValues, now, nxt);
    }
  }

  /** The action of kind `k` of a transition as a set of atoms (empty when it has none). */
  function ActionAtoms(l: EdgeLabel, k: ActionKind, ids: Option<map<Symbol, string>>): (r: set<string>)
    requires ids.Some? && LabelAction(l, k).Some? ==> LabelAction(l, k).value in ids.value
    ensures ActionText(l, k, ids).Some? ==> ActionText(l, k, ids).value in r
  {
    if ActionText(l, k, ids).Some? then {ActionText(l, k, ids).value} else {}
  }

  /** A transition that waits for no system action can always be taken. */
  lemma FreeEdgeStep(s: string, trans: seq<Edge>, ids: map<string, string>, actIds: Option<map<Symbol, string>>,
                     envIds: Option<map<Symbol, string>>, sysIds: Option<map<Symbol, string>>,
                     sysValues: seq<string>, now: set<string>) returns (nxt: set<string>)
    requires s in ids && forall e | e in trans :: e.dst in ids
    requires ActionIdsCover(trans, Actions, actIds) && ActionIdsCover(trans, SysActions, sysIds)
    requires ActionIdsCover(trans, EnvActions, envIds)
    requires SomeFree(OutEdges(trans, s), sysIds)
    ensures Eval(EnvEnvClause(s, trans, ids, actIds, envIds, sysIds, sysValues), now, nxt)
  {
    var out := OutEdges(trans, s);
    var e :| e in out && ActionText(e.edgeLabel, SysActions, sysIds).None?;
    var l := e.edgeLabel;
    nxt := {ids[e.dst]} + ActionAtoms(l, EnvActions, envIds) + ActionAtoms(l, Actions, actIds);
    assert EnvEdgeTaken(e, ids, actIds, envIds, sysIds, now, nxt);
    EnvEnvClauseMeaning(s, trans, ids, actIds, envIds, sysIds, sysValues, now, nxt);
  }

  /** Why the extra disjunct exists: a state with transitions never blocks the
      environment while no system action holds, unless every transition waits for a
      system action and there are no system action ids. */
  lemma EnvNotBlockedWhenSysIdle(s: string, trans: seq<Edge>, ids: map<string, string>, actIds: Option<map<Symbol, string>>,
                                 envIds: Option<map<Symbol, string>>, sysIds: Option<map<Symbol, string>>,
                                 sysValues: seq<string>, now: set<string>)
    requires s in ids && forall e | e in trans :: e.dst in ids
    requires ActionIdsCover(trans, Actions, actIds) && ActionIdsCover(trans, SysActions, sysIds)
    requires ActionIdsCover(trans, EnvActions, envIds)
    requires OutEdges(trans, s) != []
    requires SomeFree(OutEdges(trans, s), sysIds) || !NoIds(sysIds)
    requires forall x | x in sysValues :: x !in now
    ensures exists nxt :: Eval(EnvEnvClause(s, trans, ids, actIds, envIds, sysIds, sysValues), now, nxt)
  {
    var out := OutEdges(trans, s);
    if SomeFree(out, sysIds) {
      var nxt := FreeEdgeStep(s, trans, ids, actIds, envIds, sysIds, sysValues, now);
    } else {
      EnvEnvClauseMeaning(s, trans, ids, actIds, envIds, sysIds, sysValues, now, {});
      assert NeedsEscape(out, sysIds);
      assert Eval(EnvEnvClause(s, trans, ids, actIds, envIds, sysIds, sysValues), now, {});
    }
  }

  // ---------------------------------------------------------------------------
  // Propositions along transitions: ap_trans_from_ts

  /** `X((id) -> (aps))`: whenever the next state is `id`, its propositions follow its
      label. */
  function ApTransClause(id: string, l: StateLabel, aps: seq<string>): Prop {
    Next(false, Paren(Implies(Paren(Atom(id)), Paren(ApProp(l, aps)))))
  }

  /** The formulas of `ap_trans_from_ts` for the states `xs`, skipping the states whose
      `sprint_aps` text is empty. */
  function ApTransProps(xs: seq<string>, labels: map<string, StateLabel>, ids: map<string, string>, aps: seq<string>): seq<Prop>
    requires forall s | s in xs :: s in ids
  {
    if xs == [] then []
    else
      ApTransProps(xs[..|xs| - 1], labels, ids, aps) + ApTransItem(xs[|xs| - 1], labels, ids, aps)
  }

  /** The formula of one state, unless its proposition string is empty. */
  function ApTransItem(s: string, labels: map<string, StateLabel>, ids: map<string, string>, aps: seq<string>): seq<Prop>
    requires s in ids
  {
    if SprintAps(LabelOf(labels, s), aps) == "" then [] else [ApTransClause(ids[s], LabelOf(labels, s), aps)]
  }

  lemma NextGuardShows(id: string, q: Prop)
    ensures Show(Next(false, Paren(Implies(Paren(Atom(id)), Paren(q))))) == "X((" + id + ") -> (" + Show(q) + "))"
  {
    var body := Implies(Paren(Atom(id)), Paren(q));
    assert Show(Atom(id)) == id;
    assert Show(Paren(Atom(id))) == "(" + id + ")";
    assert Show(Paren(q)) == "(" + Show(q) + ")";
    assert Show(body) == "(" + id + ")" + " -> " + "(" + Show(q) + ")";
    assert Show(Next(false, Paren(body))) == "X" + ("(" + Show(body) + ")");
    GuardText(id, Show(q));
  }

  /** The pieces of `X((id) -> (q))`, glued. */
  lemma GuardText(id: string, q: string)
    ensures "X" + ("(" + ("(" + id + ")" + " -> " + "(" + q + ")") + ")") == "X((" + id + ") -> (" + q + "))"
  {
    assert "X" + "(" + "(" == "X((";
    assert ")" + " -> " + "(" == ") -> (";
    assert ")" + ")" == "))";
  }

  lemma ApTransClauseShows(id: string, l: StateLabel, aps: seq<string>)
    ensures Show(ApTransClause(id, l, aps)) == "X((" + id + ") -> (" + SprintAps(l, aps) + "))"
  {
    ApPropShows(l, aps);
    NextGuardShows(id, ApProp(l, aps));
  }

  lemma ApTransStep(xs: seq<string>, i: int, labels: map<string, StateLabel>, ids: map<string, string>, aps: seq<string>)
    requires 0 <= i < |xs|
    requires forall s | s in xs :: s in ids
    ensures var l := LabelOf(labels, xs[i]);
            ShowAll(ApTransProps(xs[..i + 1], labels, ids, aps)) ==
            ShowAll(ApTransProps(xs[..i], labels, ids, aps))
              + (if SprintAps(l, aps) == "" then [] else ["X((" + ids[xs[i]] + ") -> (" + SprintAps(l, aps) + "))"])
  {
    var l := LabelOf(labels, xs[i]);
    assert xs[..i + 1][..i] == xs[..i];
    var head := ApTransProps(xs[..i], labels, ids, aps);
    var item := ApTransItem(xs[i], labels, ids, aps);
    assert ApTransProps(xs[..i + 1], labels, ids, aps) == head + item;
    ShowAllAppend(head, item);
    if SprintAps(l, aps) != "" {
      ApTransClauseShows(ids[xs[i]], l, aps);
    }
  }

  /** `ap_trans_from_ts(states, state_ids, aps)`. */
  method ApTransFromTs(states: seq<string>, labels: map<string, StateLabel>, stateIds: map<string, string>,
                       aps: seq<string>) returns (trans: seq<string>)
    requires forall s | s in states :: s in stateIds
    ensures trans == ShowAll(ApTransProps(states, labels, stateIds, aps))
  {
    trans := [];
    if aps == [] {
      ApTransNoAps(states, labels, stateIds);
      return;
    }
    for i := 0 to |states|
      invariant trans == ShowAll(ApTransProps(states[..i], labels, stateIds, aps))
    {
      var state := states[i];
      var lab := LabelOf(labels, state);
      var stateId := stateIds[state];
      var tmp := SprintAps(lab, aps);
      ApTransStep(states, i, labels, stateIds, aps);
      if tmp == "" {
        assert trans + [] == trans;
        continue;
      }
      trans := trans + ["X((" + stateId + ") -> (" + tmp + "))"];
    }
    assert states[..|states|] == states;
  }

  /** Without propositions every `sprint_aps` text is empty, so the early return of the
      source agrees with its loop. */
  lemma {:induction false} ApTransNoAps(xs: seq<string>, labels: map<string, StateLabel>, ids: map<string, string>)
    requires forall s | s in xs :: s in ids
    ensures ApTransProps(xs, labels, ids, []) == []
  {
    if xs != [] {
      ApTransNoAps(xs[..|xs| - 1], labels, ids);
      SprintApsEmpty(LabelOf(labels, xs[|xs| - 1]), []);
    }
  }

  lemma ApTransClauseMeaning(id: string, l: StateLabel, aps: seq<string>, now: set<string>, nxt: set<string>)
    requires "" !in aps
    ensures Eval(ApTransClause(id, l, aps), now, nxt) <==> (id in nxt ==> forall a | a in aps :: (a in nxt <==> a in TrueAps(l)))
  {
    ApPropMeaning(l, aps, nxt, nxt);
    assert Eval(Paren(Atom(id)), nxt, nxt) == (id in nxt);
    assert Eval(Paren(ApProp(l, aps)), nxt, nxt) == Eval(ApProp(l, aps), nxt, nxt);
    var body := Implies(Paren(Atom(id)), Paren(ApProp(l, aps)));
    assert Eval(Paren(body), nxt, nxt) == Eval(body, nxt, nxt);
  }

  /** The formula of one state holds exactly when its label's propositions follow it
      into the next state. */
  lemma ApTransItemMeaning(s: string, labels: map<string, StateLabel>, ids: map<string, string>, aps: seq<string>,
                           now: set<string>, nxt: set<string>)
    requires s in ids
    requires "" !in aps
    ensures Holds(ApTransItem(s, labels, ids, aps), now, nxt) <==> ApsFollow(ids[s], LabelOf(labels, s), aps, nxt)
  {
    var l := LabelOf(labels, s);
    SprintApsEmpty(l, aps);
    var tail := ApTransItem(s, labels, ids, aps);
    if tail != [] {
      ApTransClauseMeaning(ids[s], l, aps, now, nxt);
      assert Holds(tail, now, nxt) <==> Eval(tail[0], now, nxt);
    }
  }

  /** The formulas of `ap_trans_from_ts` hold exactly when, in the next state, the
      propositions follow the label of whichever state holds. */
  lemma {:induction false} ApTransMeaning(xs: seq<string>, labels: map<string, StateLabel>, ids: map<string, string>,
                                          aps: seq<string>, now: set<string>, nxt: set<string>)
    requires forall s | s in xs :: s in ids
    requires "" !in aps
    ensures Holds(ApTransProps(xs, labels, ids, aps), now, nxt) <==>
            forall s | s in xs :: ApsFollow(ids[s], LabelOf(labels, s), aps, nxt)
  {
    if xs != [] {
      var s, front := xs[|xs| - 1], xs[..|xs| - 1];
      assert xs == front + [s];
      ApTransMeaning(front, labels, ids, aps, now, nxt);
      ApTransItemMeaning(s, labels, ids, aps, now, nxt);
      HoldsAppend(ApTransProps(front, labels, ids, aps), ApTransItem(s, labels, ids, aps), now, nxt);
      if forall t | t in front :: ApsFollow(ids[t], LabelOf(labels, t), aps, nxt) {
        if ApsFollow(ids[s], LabelOf(labels, s), aps, nxt) {
          forall t | t in xs ensures ApsFollow(ids[t], LabelOf(labels, t), aps, nxt) {
            if t != s {
              assert t in front;
            }
          }
        }
      }
    }
  }

  /** With propositions (none of them empty), every state gets exactly one formula. */
  lemma {:induction false} ApTransCount(xs: seq<string>, labels: map<string, StateLabel>, ids: map<string, string>,
                                        aps: seq<string>)
    requires forall s | s in xs :: s in ids
    requires aps != [] && "" !in aps
    ensures |ApTransProps(xs, labels, ids, aps)| == |xs|
  {
    if xs != [] {
      ApTransCount(xs[..|xs| - 1], labels, ids, aps);
      SprintApsEmpty(LabelOf(labels, xs[|xs| - 1]), aps);
    }
  }

  // ---------------------------------------------------------------------------
  // The safety formulas of a system transition system

  /** A state that holds now moves along one of its transitions. */
  predicate SysMoves(s: string, trans: seq<Edge>, ids: map<string, string>, actIds: Option<map<Symbol, string>>,
                     sysIds: Option<map<Symbol, string>>, envIds: Option<map<Symbol, string>>,
                     now: set<string>, nxt: set<string>)
    requires s in ids
    requires forall e | e in trans :: e.dst in ids
    requires ActionIdsCover(trans, Actions, actIds) && ActionIdsCover(trans, SysActions, sysIds)
    requires ActionIdsCover(trans, EnvActions, envIds)
  {
    ids[s] in now ==> exists e | e in OutEdges(trans, s) :: SysEdgeTaken(e, ids, actIds, sysIds, envIds, nxt)
  }

  /** The formulas of `sys_trans_from_ts` hold exactly when every state that holds now
      moves along one of its transitions. */
  lemma SysTransMeaning(states: seq<string>, trans: seq<Edge>, ids: map<string, string>,
                        actIds: Option<map<Symbol, string>>, sysIds: Option<map<Symbol, string>>,
                        envIds: Option<map<Symbol, string>>, now: set<string>, nxt: set<string>)
    requires StateIdsCover(states, trans, ids)
    requires ActionIdsCover(trans, Actions, actIds) && ActionIdsCover(trans, SysActions, sysIds)
    requires ActionIdsCover(trans, EnvActions, envIds)
    ensures Holds(SysTransProps(states, trans, ids, actIds, sysIds, envIds), now, nxt) <==>
            forall s | s in states :: SysMoves(s, trans, ids, actIds, sysIds, envIds, now, nxt)
  {
    var ps := SysTransProps(states, trans, ids, actIds, sysIds, envIds);
    forall i | 0 <= i < |states|
      ensures Eval(ps[i], now, nxt) <==> SysMoves(states[i], trans, ids, actIds, sysIds, envIds, now, nxt)
    {
      SysTransClauseMeaning(states[i], trans, ids, actIds, sysIds, envIds, now, nxt);
    }
    if forall s | s in states :: SysMoves(s, trans, ids, actIds, sysIds, envIds, now, nxt) {
      assert Holds(ps, now, nxt);
    }
    if Holds(ps, now, nxt) {
      forall s | s in states
        ensures SysMoves(s, trans, ids, actIds, sysIds, envIds, now, nxt)
      {
        var i :| 0 <= i < |states| && states[i] == s;
        assert Eval(ps[i], now, nxt);
      }
    }
  }

  /** The transition formulas of `sys_trans_from_ts` followed by those of
      `ap_trans_from_ts` hold exactly when the step from `now` to `nxt` follows a
      transition of the current state and the next state carries its label's
      propositions. */
  lemma SysSafetyMeaning(states: seq<string>, labels: map<string, StateLabel>, trans: seq<Edge>, ids: map<string, string>,
                         aps: seq<string>, actIds: Option<map<Symbol, string>>, sysIds: Option<map<Symbol, string>>,
                         envIds: Option<map<Symbol, string>>, now: set<string>, nxt: set<string>)
    requires StateIdsCover(states, trans, ids)
    requires ActionIdsCover(trans, Actions, actIds) && ActionIdsCover(trans, SysActions, sysIds)
    requires ActionIdsCover(trans, EnvActions, envIds)
    requires "" !in aps
    ensures Holds(SysTransProps(states, trans, ids, actIds, sysIds, envIds) + ApTransProps(states, labels, ids, aps), now, nxt) <==>
            forall s | s in states ::
              && (ids[s] in now ==> exists e | e in OutEdges(trans, s) :: SysEdgeTaken(e, ids, actIds, sysIds, envIds, nxt))
              && ApsFollow(ids[s], LabelOf(labels, s), aps, nxt)
  {
    SysTransMeaning(states, trans, ids, actIds, sysIds, envIds, now, nxt);
    ApTransMeaning(states, labels, ids, aps, now, nxt);
    HoldsAppend(SysTransProps(states, trans, ids, actIds, sysIds, envIds), ApTransProps(states, labels, ids, aps), now, nxt);
  }

}
