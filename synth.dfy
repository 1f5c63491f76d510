/** The drivers of the encoder: `fts2spec` for a closed system, `sys_open_fts2spec`
    and `env_open_fts2spec` for an open one, the dispatchers `sys_to_spec` and
    `env_to_spec`, and `_check_solver_options`. Each driver is a method that fills
    `SpecPart`s the way the source fills its dictionaries and lists, proved equal to a
    function that assembles the encodings and the generated formulas. */
module Synth {
  import opened Wrappers
  import opened TransSys
  import opened Prop
  import opened Combinators
  import opened Encoding
  import opened Generators

  /** The parts of a GR(1) specification the encoder fills: variable declarations,
      initial conditions and safety formulas of each player. */
  datatype GRSpec = GRSpec(envVars: map<string, Domain>, sysVars: map<string, Domain>,
                           envInit: seq<string>, sysInit: seq<string>,
                           envSafety: seq<string>, sysSafety: seq<string>)

  /** The triple `(vars, init, trans)` that `fts2spec` returns. */
  datatype Part = Part(vars: map<string, Domain>, init: seq<string>, trans: seq<string>)

  /** `{ap: 'boolean' for ap in aps}`. */
  function ApVars(aps: seq<string>): (r: map<string, Domain>)
    ensures r.Keys == set a | a in aps
    ensures forall a | a in r :: r[a] == Boolean
  {
    map a | a in aps :: Boolean
  }

  /** `create_actions` fails: there are actions and `actions_must` is unknown, or the
      integer encoding meets both integer and string actions. */
  predicate ActionsRejected(actions: seq<Symbol>, boolActions: bool, actionsMust: Option<string>) {
    actions != [] &&
    (!KnownMust(actionsMust) ||
     (actionsMust.Some? && !boolActions &&
      (exists a | a in actions :: a.Int?) && (exists a | a in actions :: a.Str?)))
  }

  /** The ids of the states cover the initial states and the transitions, and the
      action ids cover the tags of the transitions. */
  predicate Covered(ts: TransitionSystem, ids: map<string, string>, actIds: Option<map<Symbol, string>>,
                    sysIds: Option<map<Symbol, string>>, envIds: Option<map<Symbol, string>>) {
    && StateIdsCover(ts.states, ts.transitions, ids) && (forall s | s in ts.initial :: s in ids)
    && ActionIdsCover(ts.transitions, Actions, actIds) && ActionIdsCover(ts.transitions, SysActions, sysIds)
    && ActionIdsCover(ts.transitions, EnvActions, envIds)
  }

  /** The ids that `create_states` and `create_actions` return for a well-formed system
      cover it. */
  lemma WellFormedCovered(ts: TransitionSystem, ids: map<string, string>, actIds: Option<map<Symbol, string>>,
                          sysIds: Option<map<Symbol, string>>, envIds: Option<map<Symbol, string>>)
    requires WellFormed(ts)
    requires ids.Keys == set s | s in ts.states
    requires ts.Fts? ==> sysIds.None? && envIds.None?
    requires ts.OpenFts? ==> actIds.None?
    requires ts.Fts? && actIds.Some? ==> ts.actions != [] && forall a | a in ts.actions :: a in actIds.value
    requires ts.OpenFts? && sysIds.Some? ==> ts.sysActions != [] && forall a | a in ts.sysActions :: a in sysIds.value
    requires ts.OpenFts? && envIds.Some? ==> ts.envActions != [] && forall a | a in ts.envActions :: a in envIds.value
    ensures Covered(ts, ids, actIds, sysIds, envIds)
  {
  }

  /** The initial conditions generated from the system. */
  function InitText(ts: TransitionSystem, ids: map<string, string>, ignoreInitial: bool): seq<string>
    requires forall s | s in ts.initial :: s in ids
  {
    ShowAll(SysInitProps(ts.initial, ts.labels, ids, ts.aps, ignoreInitial))
  }

  /** The safety formulas `sys_trans_from_ts` and then `ap_trans_from_ts` generate. */
  function SysTransText(ts: TransitionSystem, ids: map<string, string>, actIds: Option<map<Symbol, string>>,
                        sysIds: Option<map<Symbol, string>>, envIds: Option<map<Symbol, string>>): seq<string>
    requires Covered(ts, ids, actIds, sysIds, envIds)
  {
    ShowAll(SysTransProps(ts.states, ts.transitions, ids, actIds, sysIds, envIds))
      + ShowAll(ApTransProps(ts.states, ts.labels, ids, ts.aps))
  }

  /** The safety formulas `env_trans_from_env_ts` and then `ap_trans_from_ts` generate. */
  function EnvTransText(ts: TransitionSystem, ids: map<string, string>, envIds: Option<map<Symbol, string>>,
                        sysIds: Option<map<Symbol, string>>): seq<string>
    requires ts.OpenFts? && Covered(ts, ids, None, sysIds, envIds)
    requires sysIds.Some? ==> forall a | a in ts.sysActions :: a in sysIds.value
  {
    ShowAll(EnvEnvProps(ts.states, ts.transitions, ids, None, envIds, sysIds, ts.sysActions))
      + ShowAll(ApTransProps(ts.states, ts.labels, ids, ts.aps))
  }

  /** The assumptions `env_trans_from_sys_ts` generates. */
  function EnvFromSysText(ts: TransitionSystem, ids: map<string, string>, envIds: Option<map<Symbol, string>>): seq<string>
    requires ts.OpenFts? && forall s | s in ts.states :: s in ids
    requires ActionIdsCover(ts.transitions, EnvActions, envIds)
    requires envIds.Some? ==> forall a | a in ts.envActions :: a in envIds.value
  {
    ShowAll(EnvFromSysProps(ts.states, ts.transitions, ids, envIds, ts.envActions))
  }

  /** `init += sys_init_from_ts(...)`, then `trans += sys_trans_from_ts(...)` and
      `trans += ap_trans_from_ts(...)`, on the system's side of the specification. */
  method FillSys(part: SpecPart, ts: TransitionSystem, ids: map<string, string>, actIds: Option<map<Symbol, string>>,
                 sysIds: Option<map<Symbol, string>>, envIds: Option<map<Symbol, string>>, ignoreInitial: bool)
    requires Covered(ts, ids, actIds, sysIds, envIds)
    modifies part
    ensures part.vars == old(part.vars)
    ensures part.init == old(part.init) + InitText(ts, ids, ignoreInitial)
    ensures part.trans == old(part.trans) + SysTransText(ts, ids, actIds, sysIds, envIds)
  {
    var init := SysInitFromTs(ts.initial, ts.labels, ids, ts.aps, ignoreInitial);
    part.init := part.init + init;
    var trans := SysTransFormulas(ts, ids, actIds, sysIds, envIds);
    part.trans := part.trans + trans;
  }

  /** `sys_trans_from_ts(...) + ap_trans_from_ts(...)`. */
  method SysTransFormulas(ts: TransitionSystem, ids: map<string, string>, actIds: Option<map<Symbol, string>>,
                          sysIds: Option<map<Symbol, string>>, envIds: Option<map<Symbol, string>>) returns (out: seq<string>)
    requires Covered(ts, ids, actIds, sysIds, envIds)
    ensures out == SysTransText(ts, ids, actIds, sysIds, envIds)
  {
    out := SysTransFromTs(ts.states, ids, ts.transitions, actIds, sysIds, envIds);
    var apTrans := ApTransFromTs(ts.states, ts.labels, ids, ts.aps);
    out := out + apTrans;
  }

  /** `env_trans += env_trans_from_sys_ts(...)`. */
  method FillEnvFromSys(part: SpecPart, ts: TransitionSystem, ids: map<string, string>, envIds: Option<map<Symbol, string>>)
    requires ts.OpenFts? && forall s | s in ts.states :: s in ids
    requires ActionIdsCover(ts.transitions, EnvActions, envIds)
    requires envIds.Some? ==> forall a | a in ts.envActions :: a in envIds.value
    modifies part
    ensures part.vars == old(part.vars) && part.init == old(part.init)
    ensures part.trans == old(part.trans) + EnvFromSysText(ts, ids, envIds)
  {
    var trans := EnvTransFromSysTs(ts.states, ids, ts.transitions, envIds, ts.envActions);
    part.trans := part.trans + trans;
  }

  /** `init += sys_init_from_ts(...)`, then `trans += env_trans_from_env_ts(...)` and
      `trans += ap_trans_from_ts(...)`, on the environment's side of the specification. */
  method FillEnv(part: SpecPart, ts: TransitionSystem, ids: map<string, string>, envIds: Option<map<Symbol, string>>,
                 sysIds: Option<map<Symbol, string>>, ignoreInitial: bool)
    requires ts.OpenFts? && Covered(ts, ids, None, sysIds, envIds)
    requires sysIds.Some? ==> forall a | a in ts.sysActions :: a in sysIds.value
    modifies part
    ensures part.vars == old(part.vars)
    ensures part.init == old(part.init) + InitText(ts, ids, ignoreInitial)
    ensures part.trans == old(part.trans) + EnvTransText(ts, ids, envIds, sysIds)
  {
    var init := SysInitFromTs(ts.initial, ts.labels, ids, ts.aps, ignoreInitial);
    part.init := part.init + init;
    var trans := EnvTransFormulas(ts, ids, envIds, sysIds);
    part.trans := part.trans + trans;
  }

  /** `env_trans_from_env_ts(...) + ap_trans_from_ts(...)`. */
  method EnvTransFormulas(ts: TransitionSystem, ids: map<string, string>, envIds: Option<map<Symbol, string>>,
                          sysIds: Option<map<Symbol, string>>) returns (out: seq<string>)
    requires ts.OpenFts? && Covered(ts, ids, None, sysIds, envIds)
    requires sysIds.Some? ==> forall a | a in ts.sysActions :: a in sysIds.value
    ensures out == EnvTransText(ts, ids, envIds, sysIds)
  {
    out := EnvTransFromEnvTs(ts.states, ids, ts.transitions, None, envIds, sysIds, ts.sysActions);
    var apTrans := ApTransFromTs(ts.states, ts.labels, ids, ts.aps);
    out := out + apTrans;
  }

  // ---------------------------------------------------------------------------
  // fts2spec

  function FtsSpec(ts: TransitionSystem, ignoreInitial: bool, boolStates: bool, statevar: string, actionvar: string,
                   boolActions: bool, actionsMust: Option<string>): Result<Part, SynthError>
    requires ts.Fts? && WellFormed(ts)
  {
    match EncodeActions(ts.actions, actionvar, boolActions, actionsMust)
    case Err(e) => Err(e)
    case Ok(act) =>
      EncodeActionsIds(ts.actions, actionvar, boolActions, actionsMust);
      Ok(FtsFrom(ts, act, EncodeStates(ts.states, statevar, boolStates), ignoreInitial))
  }

  /** The triple `fts2spec` assembles from the action and state encodings. */
  function FtsFrom(ts: TransitionSystem, act: ActionEncoding, st: StateEncoding, ignoreInitial: bool): Part
    requires ts.Fts? && WellFormed(ts) && st.ids.Keys == set s | s in ts.states
    requires act.ids.Some? ==> ts.actions != [] && forall a | a in ts.actions :: a in act.ids.value
  {
    WellFormedCovered(ts, st.ids, act.ids, None, None);
    Part(ApVars(ts.aps) + act.vars + st.vars,
         act.init + InitText(ts, st.ids, ignoreInitial),
         act.trans + st.trans + SysTransText(ts, st.ids, act.ids, None, None))
  }

  /** `fts2spec(fts, ignore_initial, bool_states, statevar, actionvar, bool_actions,
      actions_must)`. */
  method FtsToSpec(ts: TransitionSystem, ignoreInitial: bool, boolStates: bool, statevar: string, actionvar: string,
                   boolActions: bool, actionsMust: Option<string>) returns (r: Result<Part, SynthError>)
    requires ts.Fts? && WellFormed(ts)
    ensures r == FtsSpec(ts, ignoreInitial, boolStates, statevar, actionvar, boolActions, actionsMust)
  {
    var part := new SpecPart(ApVars(ts.aps));
    var created := part.CreateActions(ts.actions, actionvar, boolActions, actionsMust);
    if created.Err? {
      return Err(created.error);
    }
    var actionIds := created.value;
    ghost var act := EncodeActions(ts.actions, actionvar, boolActions, actionsMust).value;
    assert part.vars == ApVars(ts.aps) + act.vars && part.init == act.init && part.trans == act.trans && actionIds == act.ids;
    EncodeActionsIds(ts.actions, actionvar, boolActions, actionsMust);
    var stateIds := part.CreateStates(ts.states, statevar, boolStates);
    ghost var st := EncodeStates(ts.states, statevar, boolStates);
    assert part.vars == ApVars(ts.aps) + act.vars + st.vars && part.init == act.init
           && part.trans == act.trans + st.trans && stateIds == st.ids;
    WellFormedCovered(ts, stateIds, actionIds, None, None);
    FillSys(part, ts, stateIds, actionIds, None, None, ignoreInitial);
    return Ok(Part(part.vars, part.init, part.trans));
  }

  /** A closed system is rejected exactly when its actions are. */
  lemma FtsSpecOutcome(ts: TransitionSystem, ignoreInitial: bool, boolStates: bool, statevar: string, actionvar: string,
                       boolActions: bool, actionsMust: Option<string>)
    requires ts.Fts? && WellFormed(ts)
    ensures FtsSpec(ts, ignoreInitial, boolStates, statevar, actionvar, boolActions, actionsMust).Err? <==>
            ActionsRejected(ts.actions, boolActions, actionsMust)
  {
    EncodeActionsOutcome(ts.actions, actionvar, boolActions, actionsMust);
  }

  /** The declarations of a closed system: every proposition, every action variable and
      the state encoding are declared; the states, written last, are one `boolean` each
      when the encoding is boolean, and otherwise `statevar` ranges over one value per
      state. */
  lemma FtsSpecVars(ts: TransitionSystem, ignoreInitial: bool, boolStates: bool, statevar: string, actionvar: string,
                    boolActions: bool, actionsMust: Option<string>)
    requires ts.Fts? && WellFormed(ts)
    requires FtsSpec(ts, ignoreInitial, boolStates, statevar, actionvar, boolActions, actionsMust).Ok?
    ensures var p := FtsSpec(ts, ignoreInitial, boolStates, statevar, actionvar, boolActions, actionsMust).value;
            var act := EncodeActions(ts.actions, actionvar, boolActions, actionsMust).value;
            && p.vars.Keys == (set a | a in ts.aps) + act.vars.Keys + EncodeStates(ts.states, statevar, boolStates).vars.Keys
            && (BoolStates(ts.states, boolStates) ==> forall s | s in ts.states :: p.vars[s] == Boolean)
            && (!BoolStates(ts.states, boolStates) ==> statevar in p.vars && DomainSize(p.vars[statevar]) == |ts.states|)
  {
    var st := EncodeStates(ts.states, statevar, boolStates);
    if !BoolStates(ts.states, boolStates) {
      IntStateDomainSize(ts.states);
      assert st.vars[statevar] == IntStateDomain(ts.states);
    }
  }

  /** A fresh part holding only the variables and formulas of an action encoding. */
  method NewActionPart(actions: seq<Symbol>, actionvar: string, boolActions: bool, actionsMust: Option<string>)
    returns (part: SpecPart, r: Result<Option<map<Symbol, string>>, SynthError>)
    ensures fresh(part)
    ensures match EncodeActions(actions, actionvar, boolActions, actionsMust)
            case Err(e) => r == Err(e)
            case Ok(enc) => r == Ok(enc.ids) && part.vars == enc.vars && part.init == enc.init && part.trans == enc.trans
  {
    part := new SpecPart(map[]);
    r := part.CreateActions(actions, actionvar, boolActions, actionsMust);
    assert map[] + part.vars == part.vars;
    assert [] + part.init == part.init && [] + part.trans == part.trans;
  }

  /** Every action of the list has an identifier, whenever identifiers were made. */
  predicate IdsCover(actions: seq<Symbol>, ids: Option<map<Symbol, string>>)
  {
    ids.Some? ==> actions != [] && forall a | a in actions :: a in ids.value
  }

  // ---------------------------------------------------------------------------
  // sys_open_fts2spec

  function SysOpenSpec(ts: TransitionSystem, ignoreInitial: bool, boolStates: bool, actionVars: (string, string),
                       boolActions: bool, actionsMust: Option<string>): Result<GRSpec, SynthError>
    requires ts.OpenFts? && WellFormed(ts)
  {
    match EncodeActions(ts.sysActions, actionVars.1, boolActions, actionsMust)
    case Err(e) => Err(e)
    case Ok(sysAct) =>
      match EncodeActions(ts.envActions, actionVars.0, boolActions, actionsMust)
      case Err(e) => Err(e)
      case Ok(envAct) =>
        EncodeActionsIds(ts.sysActions, actionVars.1, boolActions, actionsMust);
        EncodeActionsIds(ts.envActions, actionVars.0, boolActions, actionsMust);
        Ok(SysOpenFrom(ts, sysAct, envAct, EncodeStates(ts.states, "loc", boolStates), ignoreInitial))
  }

  /** The specification `sys_open_fts2spec` assembles from the action and state
      encodings. */
  function SysOpenFrom(ts: TransitionSystem, sysAct: ActionEncoding, envAct: ActionEncoding, st: StateEncoding,
                       ignoreInitial: bool): GRSpec
    requires ts.OpenFts? && WellFormed(ts) && st.ids.Keys == set s | s in ts.states
    requires IdsCover(ts.sysActions, sysAct.ids)
    requires IdsCover(ts.envActions, envAct.ids)
  {
    WellFormedCovered(ts, st.ids, None, sysAct.ids, envAct.ids);
    GRSpec(
      envAct.vars,
      ApVars(ts.aps) + sysAct.vars + st.vars,
      envAct.init,
      sysAct.init + InitText(ts, st.ids, ignoreInitial),
      envAct.trans + EnvFromSysText(ts, st.ids, envAct.ids),
      sysAct.trans + st.trans + SysTransText(ts, st.ids, None, sysAct.ids, envAct.ids))
  }

  /** `SysOpenSpec` fails with the system's action encoding when that fails. */
  lemma SysOpenSpecSysErr(ts: TransitionSystem, ignoreInitial: bool, boolStates: bool, actionVars: (string, string),
                          boolActions: bool, actionsMust: Option<string>)
    requires ts.OpenFts? && WellFormed(ts)
    requires EncodeActions(ts.sysActions, actionVars.1, boolActions, actionsMust).Err?
    ensures SysOpenSpec(ts, ignoreInitial, boolStates, actionVars, boolActions, actionsMust) ==
            Err(EncodeActions(ts.sysActions, actionVars.1, boolActions, actionsMust).error)
  {
  }

  /** Once the system's actions are encoded, `SysOpenSpec` fails with the environment's
      action encoding when that fails, and is assembled from both encodings otherwise. */
  lemma SysOpenSpecAfterSys(ts: TransitionSystem, ignoreInitial: bool, boolStates: bool, actionVars: (string, string),
                            boolActions: bool, actionsMust: Option<string>, sysAct: ActionEncoding)
    requires ts.OpenFts? && WellFormed(ts)
    requires EncodeActions(ts.sysActions, actionVars.1, boolActions, actionsMust) == Ok(sysAct)
    ensures var ea := EncodeActions(ts.envActions, actionVars.0, boolActions, actionsMust);
            var r := SysOpenSpec(ts, ignoreInitial, boolStates, actionVars, boolActions, actionsMust);
            && (ea.Err? ==> r == Err(ea.error))
            && (ea.Ok? ==>
                  && IdsCover(ts.sysActions, sysAct.ids)
                  && IdsCover(ts.envActions, ea.value.ids)
                  && r == Ok(SysOpenFrom(ts, sysAct, ea.value, EncodeStates(ts.states, "loc", boolStates), ignoreInitial)))
  {
    EncodeActionsIds(ts.sysActions, actionVars.1, boolActions, actionsMust);
    if EncodeActions(ts.envActions, actionVars.0, boolActions, actionsMust).Ok? {
      EncodeActionsIds(ts.envActions, actionVars.0, boolActions, actionsMust);
    }
  }

  /** `sys_open_fts2spec(ofts, ignore_initial, bool_states, action_vars, bool_actions,
      actions_must)`: the system actions are encoded before the environment actions. */
  method SysOpenFtsToSpec(ts: TransitionSystem, ignoreInitial: bool, boolStates: bool, actionVars: (string, string),
                          boolActions: bool, actionsMust: Option<string>) returns (r: Result<GRSpec, SynthError>)
    requires ts.OpenFts? && WellFormed(ts)
    ensures r == SysOpenSpec(ts, ignoreInitial, boolStates, actionVars, boolActions, actionsMust)
  {
    var sys := new SpecPart(ApVars(ts.aps));
    var sysCreated := sys.CreateActions(ts.sysActions, actionVars.1, boolActions, actionsMust);
    if sysCreated.Err? {
      SysOpenSpecSysErr(ts, ignoreInitial, boolStates, actionVars, boolActions, actionsMust);
      return Err(sysCreated.error);
    }
    ghost var sysAct := EncodeActions(ts.sysActions, actionVars.1, boolActions, actionsMust).value;
    r := SysOpenEnvActions(ts, sys, sysAct, sysCreated.value, ignoreInitial, boolStates, actionVars, boolActions, actionsMust);
  }

  /** The part of `sys_open_fts2spec` after the system's actions are encoded: the
      environment's actions, then the rest. */
  method SysOpenEnvActions(ts: TransitionSystem, sys: SpecPart, ghost sysAct: ActionEncoding,
                           sysActionIds: Option<map<Symbol, string>>, ignoreInitial: bool, boolStates: bool,
                           actionVars: (string, string), boolActions: bool, actionsMust: Option<string>)
    returns (r: Result<GRSpec, SynthError>)
    requires ts.OpenFts? && WellFormed(ts)
    requires EncodeActions(ts.sysActions, actionVars.1, boolActions, actionsMust) == Ok(sysAct)
    requires sys.vars == ApVars(ts.aps) + sysAct.vars && sys.init == sysAct.init && sys.trans == sysAct.trans
    requires sysActionIds == sysAct.ids
    modifies sys
    ensures r == SysOpenSpec(ts, ignoreInitial, boolStates, actionVars, boolActions, actionsMust)
  {
    SysOpenSpecAfterSys(ts, ignoreInitial, boolStates, actionVars, boolActions, actionsMust, sysAct);
    var env, envCreated := NewActionPart(ts.envActions, actionVars.0, boolActions, actionsMust);
    if envCreated.Err? {
      return Err(envCreated.error);
    }
    ghost var envAct := EncodeActions(ts.envActions, actionVars.0, boolActions, actionsMust).value;
    var g := FinishSysOpen(ts, sys, env, sysAct, envAct, sysActionIds, envCreated.value, boolStates, ignoreInitial);
    return Ok(g);
  }

  /** The part of `sys_open_fts2spec` after the actions are encoded: the states, then
      the generated formulas. */
  method FinishSysOpen(ts: TransitionSystem, sys: SpecPart, env: SpecPart, ghost sysAct: ActionEncoding,
                       ghost envAct: ActionEncoding, sysActionIds: Option<map<Symbol, string>>,
                       envActionIds: Option<map<Symbol, string>>, boolStates: bool, ignoreInitial: bool)
    returns (g: GRSpec)
    requires ts.OpenFts? && WellFormed(ts) && sys != env
    requires IdsCover(ts.sysActions, sysAct.ids)
    requires IdsCover(ts.envActions, envAct.ids)
    requires sys.vars == ApVars(ts.aps) + sysAct.vars && sys.init == sysAct.init && sys.trans == sysAct.trans
    requires env.vars == envAct.vars && env.init == envAct.init && env.trans == envAct.trans
    requires sysActionIds == sysAct.ids && envActionIds == envAct.ids
    modifies sys, env
    ensures g == SysOpenFrom(ts, sysAct, envAct, EncodeStates(ts.states, "loc", boolStates), ignoreInitial)
  {
    var stateIds := sys.CreateStates(ts.states, "loc", boolStates);
    ghost var st := EncodeStates(ts.states, "loc", boolStates);
    assert sys.vars == ApVars(ts.aps) + sysAct.vars + st.vars && sys.init == sysAct.init
           && sys.trans == sysAct.trans + st.trans && stateIds == st.ids;
    WellFormedCovered(ts, stateIds, None, sysActionIds, envActionIds);
    FillSys(sys, ts, stateIds, None, sysActionIds, envActionIds, ignoreInitial);
    FillEnvFromSys(env, ts, stateIds, envActionIds);
    g := GRSpec(env.vars, sys.vars, env.init, sys.init, env.trans, sys.trans);
  }

  /** An open system seen from the system's side is rejected exactly when its system or
      its environment actions are, and the system actions are checked first. */
  lemma SysOpenSpecOutcome(ts: TransitionSystem, ignoreInitial: bool, boolStates: bool, actionVars: (string, string),
                           boolActions: bool, actionsMust: Option<string>)
    requires ts.OpenFts? && WellFormed(ts)
    ensures SysOpenSpec(ts, ignoreInitial, boolStates, actionVars, boolActions, actionsMust).Err? <==>
            ActionsRejected(ts.sysActions, boolActions, actionsMust) || ActionsRejected(ts.envActions, boolActions, actionsMust)
    ensures ActionsRejected(ts.sysActions, boolActions, actionsMust) ==>
            SysOpenSpec(ts, ignoreInitial, boolStates, actionVars, boolActions, actionsMust) ==
            Err(EncodeActions(ts.sysActions, actionVars.1, boolActions, actionsMust).error)
  {
    EncodeActionsOutcome(ts.sysActions, actionVars.1, boolActions, actionsMust);
    EncodeActionsOutcome(ts.envActions, actionVars.0, boolActions, actionsMust);
  }

  /** Seen from the system's side, the propositions and the state encoding are system
      variables, and the environment declares, initialises and constrains nothing when
      it has no actions. */
  lemma SysOpenSpecSides(ts: TransitionSystem, ignoreInitial: bool, boolStates: bool, actionVars: (string, string),
                         boolActions: bool, actionsMust: Option<string>)
    requires ts.OpenFts? && WellFormed(ts)
    requires SysOpenSpec(ts, ignoreInitial, boolStates, actionVars, boolActions, actionsMust).Ok?
    ensures var g := SysOpenSpec(ts, ignoreInitial, boolStates, actionVars, boolActions, actionsMust).value;
            && (forall a | a in ts.aps :: a in g.sysVars)
            && (BoolStates(ts.states, boolStates) ==> forall s | s in ts.states :: g.sysVars[s] == Boolean)
            && (!BoolStates(ts.states, boolStates) ==> "loc" in g.sysVars && DomainSize(g.sysVars["loc"]) == |ts.states|)
            && (ts.envActions == [] ==> g.envVars == map[] && g.envInit == [] && g.envSafety == [])
  {
    var st := EncodeStates(ts.states, "loc", boolStates);
    var sysAct := EncodeActions(ts.sysActions, actionVars.1, boolActions, actionsMust).value;
    var envAct := EncodeActions(ts.envActions, actionVars.0, boolActions, actionsMust).value;
    SysOpenSpecAfterSys(ts, ignoreInitial, boolStates, actionVars, boolActions, actionsMust, sysAct);
    SysOpenFromSides(ts, sysAct, envAct, st, ignoreInitial);
    StateVarsLast(ts.aps, sysAct.vars, ts.states, "loc", boolStates);
    if ts.envActions == [] {
      EncodeActionsOutcome(ts.envActions, actionVars.0, boolActions, actionsMust);
    }
  }

  /** The system variables of an assembled open specification, and its empty
      environment side when the environment has no actions. */
  lemma SysOpenFromSides(ts: TransitionSystem, sysAct: ActionEncoding, envAct: ActionEncoding, st: StateEncoding,
                         ignoreInitial: bool)
    requires ts.OpenFts? && WellFormed(ts) && st.ids.Keys == set s | s in ts.states
    requires IdsCover(ts.sysActions, sysAct.ids)
    requires IdsCover(ts.envActions, envAct.ids)
    ensures var g := SysOpenFrom(ts, sysAct, envAct, st, ignoreInitial);
            && g.sysVars == ApVars(ts.aps) + sysAct.vars + st.vars
            && (ts.envActions == [] && envAct == ActionEncoding(None, map[], [], []) ==>
                  g.envVars == map[] && g.envInit == [] && g.envSafety == [])
  {
    if ts.envActions == [] && envAct == ActionEncoding(None, map[], [], []) {
      assert EnvFromSysProps(ts.states, ts.transitions, st.ids, None, ts.envActions) == [];
    }
  }

  /** The state variables are declared after the propositions and the actions, so they
      are the ones that stay; the propositions are declared whatever comes after them. */
  lemma StateVarsLast(aps: seq<string>, acts: map<string, Domain>, states: seq<string>, statevar: string, boolStates: bool)
    ensures var v := ApVars(aps) + acts + EncodeStates(states, statevar, boolStates).vars;
            && (forall a | a in aps :: a in v)
            && (BoolStates(states, boolStates) ==> forall s | s in states :: v[s] == Boolean)
            && (!BoolStates(states, boolStates) ==> statevar in v && DomainSize(v[statevar]) == |states|)
  {
    if !BoolStates(states, boolStates) {
      IntStateDomainSize(states);
    }
  }

  // ---------------------------------------------------------------------------
  // env_open_fts2spec

  function EnvOpenSpec(ts: TransitionSystem, ignoreInitial: bool, boolStates: bool, actionVars: (string, string),
                       boolActions: bool, actionsMust: Option<string>): Result<GRSpec, SynthError>
    requires ts.OpenFts? && WellFormed(ts)
  {
    match EncodeActions(ts.envActions, actionVars.0, boolActions, actionsMust)
    case Err(e) => Err(e)
    case Ok(envAct) =>
      match EncodeActions(ts.sysActions, actionVars.1, boolActions, actionsMust)
      case Err(e) => Err(e)
      case Ok(sysAct) =>
        EncodeActionsIds(ts.sysActions, actionVars.1, boolActions, actionsMust);
        EncodeActionsIds(ts.envActions, actionVars.0, boolActions, actionsMust);
        Ok(EnvOpenFrom(ts, envAct, sysAct, EncodeStates(ts.states, "eloc", boolStates), ignoreInitial))
  }

  /** The specification `env_open_fts2spec` assembles from the action and state
      encodings. */
  function EnvOpenFrom(ts: TransitionSystem, envAct: ActionEncoding, sysAct: ActionEncoding, st: StateEncoding,
                       ignoreInitial: bool): GRSpec
    requires ts.OpenFts? && WellFormed(ts) && st.ids.Keys == set s | s in ts.states
    requires IdsCover(ts.sysActions, sysAct.ids)
    requires IdsCover(ts.envActions, envAct.ids)
  {
    WellFormedCovered(ts, st.ids, None, sysAct.ids, envAct.ids);
    GRSpec(
      ApVars(ts.aps) + envAct.vars + st.vars,
      sysAct.vars,
      envAct.init + InitText(ts, st.ids, ignoreInitial),
      sysAct.init,
      envAct.trans + st.trans + EnvTransText(ts, st.ids, envAct.ids, sysAct.ids),
      sysAct.trans)
  }

  /** `EnvOpenSpec` fails with the environment's action encoding when that fails. */
  lemma EnvOpenSpecEnvErr(ts: TransitionSystem, ignoreInitial: bool, boolStates: bool, actionVars: (string, string),
                          boolActions: bool, actionsMust: Option<string>)
    requires ts.OpenFts? && WellFormed(ts)
    requires EncodeActions(ts.envActions, actionVars.0, boolActions, actionsMust).Err?
    ensures EnvOpenSpec(ts, ignoreInitial, boolStates, actionVars, boolActions, actionsMust) ==
            Err(EncodeActions(ts.envActions, actionVars.0, boolActions, actionsMust).error)
  {
  }

  /** Once the environment's actions are encoded, `EnvOpenSpec` fails with the system's
      action encoding when that fails, and is assembled from both encodings otherwise. */
  lemma EnvOpenSpecAfterEnv(ts: TransitionSystem, ignoreInitial: bool, boolStates: bool, actionVars: (string, string),
                            boolActions: bool, actionsMust: Option<string>, envAct: ActionEncoding)
    requires ts.OpenFts? && WellFormed(ts)
    requires EncodeActions(ts.envActions, actionVars.0, boolActions, actionsMust) == Ok(envAct)
    ensures var sa := EncodeActions(ts.sysActions, actionVars.1, boolActions, actionsMust);
            var r := EnvOpenSpec(ts, ignoreInitial, boolStates, actionVars, boolActions, actionsMust);
            && (sa.Err? ==> r == Err(sa.error))
            && (sa.Ok? ==>
                  && IdsCover(ts.sysActions, sa.value.ids)
                  && IdsCover(ts.envActions, envAct.ids)
                  && r == Ok(EnvOpenFrom(ts, envAct, sa.value, EncodeStates(ts.states, "eloc", boolStates), ignoreInitial)))
  {
    EncodeActionsIds(ts.envActions, actionVars.0, boolActions, actionsMust);
    if EncodeActions(ts.sysActions, actionVars.1, boolActions, actionsMust).Ok? {
      EncodeActionsIds(ts.sysActions, actionVars.1, boolActions, actionsMust);
    }
  }

  /** `env_open_fts2spec(ofts, ignore_initial, bool_states, action_vars, bool_actions,
      actions_must)`: the environment actions are encoded before the system actions. */
  method EnvOpenFtsToSpec(ts: TransitionSystem, ignoreInitial: bool, boolStates: bool, actionVars: (string, string),
                          boolActions: bool, actionsMust: Option<string>) returns (r: Result<GRSpec, SynthError>)
    requires ts.OpenFts? && WellFormed(ts)
    ensures r == EnvOpenSpec(ts, ignoreInitial, boolStates, actionVars, boolActions, actionsMust)
  {
    var env := new SpecPart(ApVars(ts.aps));
    var envCreated := env.CreateActions(ts.envActions, actionVars.0, boolActions, actionsMust);
    if envCreated.Err? {
      EnvOpenSpecEnvErr(ts, ignoreInitial, boolStates, actionVars, boolActions, actionsMust);
      return Err(envCreated.error);
    }
    ghost var envAct := EncodeActions(ts.envActions, actionVars.0, boolActions, actionsMust).value;
    r := EnvOpenSysActions(ts, env, envAct, envCreated.value, ignoreInitial, boolStates, actionVars, boolActions, actionsMust);
  }

  /** The part of `env_open_fts2spec` after the environment's actions are encoded: the
      system's actions, then the rest. */
  method EnvOpenSysActions(ts: TransitionSystem, env: SpecPart, ghost envAct: ActionEncoding,
                           envActionIds: Option<map<Symbol, string>>, ignoreInitial: bool, boolStates: bool,
                           actionVars: (string, string), boolActions: bool, actionsMust: Option<string>)
    returns (r: Result<GRSpec, SynthError>)
    requires ts.OpenFts? && WellFormed(ts)
    requires EncodeActions(ts.envActions, actionVars.0, boolActions, actionsMust) == Ok(envAct)
    requires env.vars == ApVars(ts.aps) + envAct.vars && env.init == envAct.init && env.trans == envAct.trans
    requires envActionIds == envAct.ids
    modifies env
    ensures r == EnvOpenSpec(ts, ignoreInitial, boolStates, actionVars, boolActions, actionsMust)
  {
    EnvOpenSpecAfterEnv(ts, ignoreInitial, boolStates, actionVars, boolActions, actionsMust, envAct);
    var sys, sysCreated := NewActionPart(ts.sysActions, actionVars.1, boolActions, actionsMust);
    if sysCreated.Err? {
      return Err(sysCreated.error);
    }
    ghost var sysAct := EncodeActions(ts.sysActions, actionVars.1, boolActions, actionsMust).value;
    var g := FinishEnvOpen(ts, env, sys, envAct, sysAct, envActionIds, sysCreated.value, boolStates, ignoreInitial);
    return Ok(g);
  }

  /** The part of `env_open_fts2spec` after the actions are encoded: the states, then
      the generated formulas. */
  method FinishEnvOpen(ts: TransitionSystem, env: SpecPart, sys: SpecPart, ghost envAct: ActionEncoding,
                       ghost sysAct: ActionEncoding, envActionIds: Option<map<Symbol, string>>,
                       sysActionIds: Option<map<Symbol, string>>, boolStates: bool, ignoreInitial: bool)
    returns (g: GRSpec)
    requires ts.OpenFts? && WellFormed(ts) && sys != env
    requires IdsCover(ts.sysActions, sysAct.ids)
    requires IdsCover(ts.envActions, envAct.ids)
    requires env.vars == ApVars(ts.aps) + envAct.vars && env.init == envAct.init && env.trans == envAct.trans
    requires sys.vars == sysAct.vars && sys.init == sysAct.init && sys.trans == sysAct.trans
    requires sysActionIds == sysAct.ids && envActionIds == envAct.ids
    modifies sys, env
    ensures g == EnvOpenFrom(ts, envAct, sysAct, EncodeStates(ts.states, "eloc", boolStates), ignoreInitial)
  {
    var stateIds := env.CreateStates(ts.states, "eloc", boolStates);
    ghost var st := EncodeStates(ts.states, "eloc", boolStates);
    assert env.vars == ApVars(ts.aps) + envAct.vars + st.vars && env.init == envAct.init
           && env.trans == envAct.trans + st.trans && stateIds == st.ids;
    WellFormedCovered(ts, stateIds, None, sysActionIds, envActionIds);
    FillEnv(env, ts, stateIds, envActionIds, sysActionIds, ignoreInitial);
    g := GRSpec(env.vars, sys.vars, env.init, sys.init, env.trans, sys.trans);
  }

  /** An open system seen from the environment's side is rejected exactly when its
      environment or its system actions are, and the environment actions are checked
      first. */
  lemma EnvOpenSpecOutcome(ts: TransitionSystem, ignoreInitial: bool, boolStates: bool, actionVars: (string, string),
                           boolActions: bool, actionsMust: Option<string>)
    requires ts.OpenFts? && WellFormed(ts)
    ensures EnvOpenSpec(ts, ignoreInitial, boolStates, actionVars, boolActions, actionsMust).Err? <==>
            ActionsRejected(ts.envActions, boolActions, actionsMust) || ActionsRejected(ts.sysActions, boolActions, actionsMust)
    ensures ActionsRejected(ts.envActions, boolActions, actionsMust) ==>
            EnvOpenSpec(ts, ignoreInitial, boolStates, actionVars, boolActions, actionsMust) ==
            Err(EncodeActions(ts.envActions, actionVars.0, boolActions, actionsMust).error)
  {
    EncodeActionsOutcome(ts.sysActions, actionVars.1, boolActions, actionsMust);
    EncodeActionsOutcome(ts.envActions, actionVars.0, boolActions, actionsMust);
  }

  /** Seen from the environment's side, the propositions and the state encoding
      (`eloc`) are environment variables, every state gets one environment safety
      formula, and the system part holds only its action encoding: nothing at all when
      it has no actions. */
  lemma EnvOpenSpecSides(ts: TransitionSystem, ignoreInitial: bool, boolStates: bool, actionVars: (string, string),
                         boolActions: bool, actionsMust: Option<string>)
    requires ts.OpenFts? && WellFormed(ts)
    requires EnvOpenSpec(ts, ignoreInitial, boolStates, actionVars, boolActions, actionsMust).Ok?
    ensures var g := EnvOpenSpec(ts, ignoreInitial, boolStates, actionVars, boolActions, actionsMust).value;
            && (forall a | a in ts.aps :: a in g.envVars)
            && (BoolStates(ts.states, boolStates) ==> forall s | s in ts.states :: g.envVars[s] == Boolean)
            && (!BoolStates(ts.states, boolStates) ==> "eloc" in g.envVars && DomainSize(g.envVars["eloc"]) == |ts.states|)
            && |g.envSafety| >= |ts.states|
            && (ts.sysActions == [] ==> g.sysVars == map[] && g.sysInit == [] && g.sysSafety == [])
  {
    var st := EncodeStates(ts.states, "eloc", boolStates);
    var envAct := EncodeActions(ts.envActions, actionVars.0, boolActions, actionsMust).value;
    var sysAct := EncodeActions(ts.sysActions, actionVars.1, boolActions, actionsMust).value;
    var g := EnvOpenSpec(ts, ignoreInitial, boolStates, actionVars, boolActions, actionsMust).value;
    assert g.envVars == ApVars(ts.aps) + envAct.vars + st.vars;
    StateVarsLast(ts.aps, envAct.vars, ts.states, "eloc", boolStates);
    if ts.sysActions == [] {
      EncodeActionsOutcome(ts.sysActions, actionVars.1, boolActions, actionsMust);
      assert sysAct == ActionEncoding(None, map[], [], []);
    }
  }

  // ---------------------------------------------------------------------------
  // sys_to_spec, env_to_spec

  /** Indexing `action_vars` when it is `None`. */
  const NoActionVars := TypeError("'NoneType' object has no attribute '__getitem__'")

  function SysSpec(ts: TransitionSystem, ignoreInitial: bool, boolStates: bool, actionVars: Option<(string, string)>,
                   boolActions: bool, actionsMust: Option<string>): Result<GRSpec, SynthError>
    requires WellFormed(ts)
  {
    if actionVars.None? then Err(NoActionVars)
    else if ts.Fts? then
      match FtsSpec(ts, ignoreInitial, boolStates, "loc", actionVars.value.1, boolActions, actionsMust)
      case Err(e) => Err(e)
      case Ok(p) => Ok(GRSpec(map[], p.vars, [], p.init, [], p.trans))
    else SysOpenSpec(ts, ignoreInitial, boolStates, actionVars.value, boolActions, actionsMust)
  }

  /** `sys_to_spec(sys, ignore_initial, bool_states, action_vars, bool_actions,
      actions_must)`. */
  method SysToSpec(ts: TransitionSystem, ignoreInitial: bool, boolStates: bool, actionVars: Option<(string, string)>,
                   boolActions: bool, actionsMust: Option<string>) returns (r: Result<GRSpec, SynthError>)
    requires WellFormed(ts)
    ensures r == SysSpec(ts, ignoreInitial, boolStates, actionVars, boolActions, actionsMust)
  {
    if actionVars.None? {
      return Err(NoActionVars);
    }
    if ts.Fts? {
      var p := FtsToSpec(ts, ignoreInitial, boolStates, "loc", actionVars.value.1, boolActions, actionsMust);
      if p.Err? {
        return Err(p.error);
      }
      return Ok(GRSpec(map[], p.value.vars, [], p.value.init, [], p.value.trans));
    }
    r := SysOpenFtsToSpec(ts, ignoreInitial, boolStates, actionVars.value, boolActions, actionsMust);
  }

  function EnvSpec(ts: TransitionSystem, ignoreInitial: bool, boolStates: bool, actionVars: Option<(string, string)>,
                   boolActions: bool, actionsMust: Option<string>): Result<GRSpec, SynthError>
    requires WellFormed(ts)
  {
    if actionVars.None? then Err(NoActionVars)
    else if ts.Fts? then
      match FtsSpec(ts, ignoreInitial, boolStates, "eloc", actionVars.value.0, boolActions, actionsMust)
      case Err(e) => Err(e)
      case Ok(p) => Ok(GRSpec(p.vars, map[], p.init, [], p.trans, []))
    else EnvOpenSpec(ts, ignoreInitial, boolStates, actionVars.value, boolActions, actionsMust)
  }

  /** `env_to_spec(env, ignore_initial, bool_states, action_vars, bool_actions,
      actions_must)`. */
  method EnvToSpec(ts: TransitionSystem, ignoreInitial: bool, boolStates: bool, actionVars: Option<(string, string)>,
                   boolActions: bool, actionsMust: Option<string>) returns (r: Result<GRSpec, SynthError>)
    requires WellFormed(ts)
    ensures r == EnvSpec(ts, ignoreInitial, boolStates, actionVars, boolActions, actionsMust)
  {
    if actionVars.None? {
      return Err(NoActionVars);
    }
    if ts.Fts? {
      var p := FtsToSpec(ts, ignoreInitial, boolStates, "eloc", actionVars.value.0, boolActions, actionsMust);
      if p.Err? {
        return Err(p.error);
      }
      return Ok(GRSpec(p.value.vars, map[], p.value.init, [], p.value.trans, []));
    }
    r := EnvOpenFtsToSpec(ts, ignoreInitial, boolStates, actionVars.value, boolActions, actionsMust);
  }

  /** A closed system fills only its own side: as the system, with `loc` and the
      second action variable; as the environment, with `eloc` and the first. */
  lemma ClosedSides(ts: TransitionSystem, ignoreInitial: bool, boolStates: bool, actionVars: (string, string),
                    boolActions: bool, actionsMust: Option<string>)
    requires ts.Fts? && WellFormed(ts)
    ensures var g := SysSpec(ts, ignoreInitial, boolStates, Some(actionVars), boolActions, actionsMust);
            && (g.Err? <==> ActionsRejected(ts.actions, boolActions, actionsMust))
            && (g.Ok? ==> g.value.envVars == map[] && g.value.envInit == [] && g.value.envSafety == []
                          && |g.value.sysSafety| >= |ts.states|)
    ensures var g := EnvSpec(ts, ignoreInitial, boolStates, Some(actionVars), boolActions, actionsMust);
            && (g.Err? <==> ActionsRejected(ts.actions, boolActions, actionsMust))
            && (g.Ok? ==> g.value.sysVars == map[] && g.value.sysInit == [] && g.value.sysSafety == []
                          && |g.value.envSafety| >= |ts.states|)
  {
    FtsSpecOutcome(ts, ignoreInitial, boolStates, "loc", actionVars.1, boolActions, actionsMust);
    FtsSpecOutcome(ts, ignoreInitial, boolStates, "eloc", actionVars.0, boolActions, actionsMust);
  }

  // ---------------------------------------------------------------------------
  // _check_solver_options

  /** `_default_action_vars()`. */
  function DefaultActionVars(): (r: (string, string))
    ensures r.0 != r.1
  {
    ("eact", "act")
  }

  /** `_check_solver_options(option, bool_states, action_vars, bool_actions)`: fills in
      the default action variables, and JTLV gets boolean states and actions. */
  function CheckSolverOptions(option: string, boolStates: bool, actionVars: Option<(string, string)>,
                              boolActions: bool): (bool, (string, string), bool)
  {
    var vars := if actionVars.None? then DefaultActionVars() else actionVars.value;
    var states := if !boolStates && option == "jtlv" then true else boolStates;
    var actions := if !boolActions && option == "jtlv" then true else boolActions;
    (states, vars, actions)
  }

  /** After the options are checked, converting a system never fails for want of
      action variables; under JTLV the states are encoded as booleans and each of the
      system's action lists is rejected only for an unknown `actions_must`; for other
      solvers the choices are kept. */
  lemma CheckedOptions(option: string, boolStates: bool, actionVars: Option<(string, string)>, boolActions: bool,
                       ts: TransitionSystem, ignoreInitial: bool, actionsMust: Option<string>)
    requires WellFormed(ts)
    ensures var (bs, av, ba) := CheckSolverOptions(option, boolStates, actionVars, boolActions);
            && SysSpec(ts, ignoreInitial, bs, Some(av), ba, actionsMust) != Err(NoActionVars)
            && (actionVars.Some? ==> av == actionVars.value)
            && (option == "jtlv" ==>
                  BoolStates(ts.states, bs)
                  && (ts.Fts? ==>
                        (ActionsRejected(ts.actions, ba, actionsMust) <==> ts.actions != [] && !KnownMust(actionsMust)))
                  && (ts.OpenFts? ==>
                        (ActionsRejected(ts.sysActions, ba, actionsMust) <==> ts.sysActions != [] && !KnownMust(actionsMust))
                        && (ActionsRejected(ts.envActions, ba, actionsMust) <==> ts.envActions != [] && !KnownMust(actionsMust))))
            && (option != "jtlv" ==> bs == boolStates && ba == boolActions)
  {
    var (bs, av, ba) := CheckSolverOptions(option, boolStates, actionVars, boolActions);
    SysSpecKeepsActionVars(ts, ignoreInitial, bs, av, ba, actionsMust);
  }

  /** Once action variables are given, the conversion never fails for want of them. */
  lemma SysSpecKeepsActionVars(ts: TransitionSystem, ignoreInitial: bool, boolStates: bool, av: (string, string),
                               boolActions: bool, actionsMust: Option<string>)
    requires WellFormed(ts)
    ensures SysSpec(ts, ignoreInitial, boolStates, Some(av), boolActions, actionsMust) != Err(NoActionVars)
  {
    if ts.Fts? {
      ActionErrorIsNotNoActionVars(ts.actions, av.1, boolActions, actionsMust);
    } else {
      ActionErrorIsNotNoActionVars(ts.sysActions, av.1, boolActions, actionsMust);
      ActionErrorIsNotNoActionVars(ts.envActions, av.0, boolActions, actionsMust);
    }
  }

  /** Encoding actions never fails with the error of missing action variables. */
  lemma ActionErrorIsNotNoActionVars(actions: seq<Symbol>, actionvar: string, boolActions: bool,
                                     actionsMust: Option<string>)
    ensures EncodeActions(actions, actionvar, boolActions, actionsMust) != Err(NoActionVars)
  {
    if EncodeActions(actions, actionvar, boolActions, actionsMust).Err? {
      EncodeActionsErrors(actions, actionvar, boolActions, actionsMust);
      assert |NoActionVars.msg| != |"cannot concatenate 'str' and 'int' objects"|;
    }
  }

}
