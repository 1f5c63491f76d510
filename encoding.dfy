/** How states and actions become GR(1) variables: `create_states`, `states2ints`,
    `create_actions` and `actions2ints`. Each policy is a pure function (`EncodeStates`,
    `EncodeActions`, ...) about which the lemmas speak; the methods of `SpecPart` carry
    out the policy on the caller's variables and formula lists, as the encoder does. */
module Encoding {
  import opened Wrappers
  import opened Text
  import opened TransSys
  import opened Prop
  import opened Combinators

  /** The type of a GR(1) variable: `'boolean'`, an integer range `(lo, hi)` or a
      list of values. */
  datatype Domain = Boolean | IntRange(lo: int, hi: int) | Enum(values: seq<string>)

  /** How many values a variable of this domain can take. */
  function DomainSize(d: Domain): int {
    match d
    case Boolean => 2
    case IntRange(lo, hi) => if hi < lo then 0 else hi - lo + 1
    case Enum(vs) => |vs|
  }

  /** The exceptions the encoder raises. */
  datatype SynthError = TypeError(msg: string) | Exception(msg: string)

  lemma PrefixCancel(p: string, a: string, b: string)
    ensures p + a == p + b <==> a == b
  {
    if p + a == p + b {
      assert (p + a)[|p|..] == a;
      assert (p + b)[|p|..] == b;
    }
  }

  // ---------------------------------------------------------------------------
  // states2ints

  /** `int(state[1:])` succeeds for every state: each name is one letter and a number. */
  predicate LetterInt(states: seq<string>) {
    forall s | s in states :: IsIntLiteral(Tail(s))
  }

  /** The ids `states2ints` gives: `statevar = n` with the text after the first letter
      when every name is a letter and a number, `statevar = s` otherwise. */
  function IntStateIds(states: seq<string>, statevar: string): (r: map<string, string>)
    ensures r.Keys == set s | s in states
  {
    if LetterInt(states) then map s | s in states :: statevar + " = " + Tail(s)
    else map s | s in states :: statevar + " = " + s
  }

  /** The domain `states2ints` gives: `(0, n-1)` for letter-and-number names, the
      states themselves otherwise. */
  function IntStateDomain(states: seq<string>): Domain {
    if LetterInt(states) then IntRange(0, |states| - 1) else Enum(states)
  }

  /** `states2ints(states, statevar)`: one pass that stops at the first name that is not
      a letter and a number. */
  method StatesToInts(states: seq<string>, statevar: string) returns (ids: map<string, string>, domain: Domain)
    ensures ids == IntStateIds(states, statevar)
    ensures domain == IntStateDomain(states)
  {
    var letterInt := true;
    var i := 0;
    while i < |states|
      invariant 0 <= i <= |states|
      invariant forall j | 0 <= j < i :: IsIntLiteral(Tail(states[j]))
    {
      if !IsIntLiteral(Tail(states[i])) {
        letterInt := false;
        break;
      }
      i := i + 1;
    }
    assert letterInt <==> LetterInt(states);
    if letterInt {
      ids := map s | s in states :: statevar + " = " + Tail(s);
      domain := IntRange(0, |states| - 1);
    } else {
      ids := map s | s in states :: statevar + " = " + s;
      domain := Enum(states);
    }
  }

  /** Two states share an integer id exactly when their numbers are written alike
      (letter-and-number names) or they are the same state (other names). */
  lemma IntStateIdsDistinct(states: seq<string>, statevar: string, s: string, t: string)
    requires s in states && t in states
    ensures IntStateIds(states, statevar)[s] == IntStateIds(states, statevar)[t] <==>
            (if LetterInt(states) then Tail(s) == Tail(t) else s == t)
  {
    if LetterInt(states) {
      PrefixCancel(statevar + " = ", Tail(s), Tail(t));
    } else {
      PrefixCancel(statevar + " = ", s, t);
    }
  }

  /** An integer range declared for `n` letter-and-number states has exactly `n` values;
      otherwise the domain lists the states. */
  lemma IntStateDomainSize(states: seq<string>)
    ensures DomainSize(IntStateDomain(states)) == |states|
  {
  }

  // ---------------------------------------------------------------------------
  // create_states

  /** What `create_states` produces: the ids, the variables it declares and the
      formulas it appends to the safety list. */
  datatype StateEncoding = StateEncoding(ids: map<string, string>, vars: map<string, Domain>, trans: seq<string>)

  /** Boolean variables when asked for, or when there are fewer than 3 states. */
  predicate BoolStates(states: seq<string>, boolStates: bool) {
    |states| < 3 || boolStates
  }

  function EncodeStates(states: seq<string>, statevar: string, boolStates: bool): (r: StateEncoding)
    ensures r.ids.Keys == set s | s in states
  {
    if BoolStates(states, boolStates) then
      StateEncoding(map s | s in states :: s, map s | s in states :: Boolean, ExactlyOne(states))
    else
      StateEncoding(IntStateIds(states, statevar), map[statevar := IntStateDomain(states)], [])
  }

  /** Below 3 states the encoding is boolean whatever was asked: one `boolean` variable
      per state, each state its own id, and the `exactly_one` constraint over the states,
      which holds exactly when one state variable is true. */
  lemma EncodeStatesFewStates(states: seq<string>, statevar: string, boolStates: bool, now: set<string>, nxt: set<string>)
    requires |states| < 3
    ensures var enc := EncodeStates(states, statevar, boolStates);
            && enc.vars.Keys == (set s | s in states)
            && (forall s | s in states :: enc.vars[s] == Boolean && enc.ids[s] == s)
            && enc.trans == ShowAll(ExactlyOneProps(states))
            && (states != [] ==>
                  (Holds(ExactlyOneProps(states), now, nxt) <==>
                   (exists s | s in states :: s in now) && AtMostOne(states, now)))
  {
    ExactlyOneShows(states);
    if states != [] {
      ExactlyOneMeaning(states, now, nxt);
    }
  }

  /** With 3 states or more and integer states asked for, a single variable `statevar`
      is declared and no constraint is added; letter-and-number names give the range
      `(0, n-1)` and ids `statevar = <number>`. */
  lemma EncodeStatesInt(states: seq<string>, statevar: string)
    requires |states| >= 3
    ensures var enc := EncodeStates(states, statevar, false);
            && enc.vars.Keys == {statevar}
            && enc.trans == []
            && (LetterInt(states) ==>
                  enc.vars[statevar] == IntRange(0, |states| - 1)
                  && forall s | s in states :: enc.ids[s] == statevar + " = " + Tail(s))
            && (!LetterInt(states) ==>
                  enc.vars[statevar] == Enum(states)
                  && forall s | s in states :: enc.ids[s] == statevar + " = " + s)
  {
  }

  /** Distinct states get distinct ids, except letter-and-number names whose numbers
      are written alike. */
  lemma EncodeStatesDistinct(states: seq<string>, statevar: string, boolStates: bool, s: string, t: string)
    requires s in states && t in states
    requires !BoolStates(states, boolStates) ==> !LetterInt(states) || Tail(s) != Tail(t)
    ensures s != t ==> EncodeStates(states, statevar, boolStates).ids[s] != EncodeStates(states, statevar, boolStates).ids[t]
  {
    if !BoolStates(states, boolStates) {
      IntStateIdsDistinct(states, statevar, s, t);
    }
  }

  // ---------------------------------------------------------------------------
  // actions2ints

  /** `isinstance(action, int)` holds for every action. */
  predicate AllInt(actions: seq<Symbol>) {
    forall a | a in actions :: a.Int?
  }

  /** The names of string actions. */
  function StrNames(actions: seq<Symbol>): (r: seq<string>)
    requires forall a | a in actions :: a.Str?
    ensures |r| == |actions|
    ensures forall i | 0 <= i < |actions| :: r[i] == actions[i].s
  {
    seq(|actions|, i requires 0 <= i < |actions| => actions[i].s)
  }

  /** What `actions2ints` returns: integer actions are their own ids over `(0, N)`, or
      `(0, N-1)` under `min_one`; string actions get ids `actionvar = a` over the
      actions themselves, plus `actionvar + 'none'` unless `min_one`. Mixing integer
      and string actions fails when an integer is concatenated to `actionvar = `. */
  function IntActionEncoding(actions: seq<Symbol>, actionvar: string, minOne: bool): Result<(map<Symbol, string>, Domain), SynthError> {
    if AllInt(actions) then
      Ok((map a | a in actions :: SymbolText(a),
          IntRange(0, if minOne then |actions| - 1 else |actions|)))
    else if exists a | a in actions :: a.Int? then
      Err(TypeError("cannot concatenate 'str' and 'int' objects"))
    else
      Ok((map a | a in actions :: actionvar + " = " + a.s,
          Enum(StrNames(actions) + (if minOne then [] else [actionvar + "none"]))))
  }

  /** `actions2ints(actions, actionvar, min_one)`: one pass that stops at the first
      action that is not an integer. */
  method ActionsToInts(actions: seq<Symbol>, actionvar: string, minOne: bool) returns (r: Result<(map<Symbol, string>, Domain), SynthError>)
    ensures r == IntActionEncoding(actions, actionvar, minOne)
  {
    var intActions := true;
    var i := 0;
    while i < |actions|
      invariant 0 <= i <= |actions|
      invariant forall j | 0 <= j < i :: actions[j].Int?
    {
      if !actions[i].Int? {
        intActions := false;
        break;
      }
      i := i + 1;
    }
    assert intActions <==> AllInt(actions);
    if intActions {
      var n := if minOne then |actions| - 1 else |actions|;
      r := Ok((map a | a in actions :: SymbolText(a), IntRange(0, n)));
    } else if exists a | a in actions :: a.Int? {
      r := Err(TypeError("cannot concatenate 'str' and 'int' objects"));
    } else {
      var domain := StrNames(actions);
      if !minOne {
        domain := domain + [actionvar + "none"];
      } else {
        assert domain == StrNames(actions) + [];
      }
      r := Ok((map a | a in actions :: actionvar + " = " + a.s, Enum(domain)));
    }
  }

  /** The integer encoding has one value per action and, unless `min_one`, one more for
      "no action": the domain has `N + 1` values, or `N` under `min_one`. It fails
      exactly when integer and string actions are mixed. */
  lemma IntActionDomainSize(actions: seq<Symbol>, actionvar: string, minOne: bool)
    requires NoDup(actions)
    ensures IntActionEncoding(actions, actionvar, minOne).Err? <==>
            (exists a | a in actions :: a.Int?) && (exists a | a in actions :: a.Str?)
    ensures IntActionEncoding(actions, actionvar, minOne).Ok? ==>
            DomainSize(IntActionEncoding(actions, actionvar, minOne).value.1) == |actions| + (if minOne then 0 else 1)
  {
    if !AllInt(actions) && exists a | a in actions :: a.Int? {
      var b :| b in actions && !b.Int?;
      assert b.Str?;
    }
  }

  /** String actions get distinct ids. */
  lemma IntActionIdsDistinct(actions: seq<Symbol>, actionvar: string, minOne: bool, a: Symbol, b: Symbol)
    requires forall x | x in actions :: x.Str?
    requires a in actions && b in actions && a != b
    ensures IntActionEncoding(actions, actionvar, minOne).Ok?
    ensures IntActionEncoding(actions, actionvar, minOne).value.0[a] != IntActionEncoding(actions, actionvar, minOne).value.0[b]
  {
    if actions != [] {
      assert actions[0].Str?;
    }
    PrefixCancel(actionvar + " = ", a.s, b.s);
  }

  // ---------------------------------------------------------------------------
  // create_actions

  /** What `create_actions` produces: the ids it returns (`None` for no actions), the
      variables it declares and the formulas it appends to the init and safety lists. */
  datatype ActionEncoding = ActionEncoding(ids: Option<map<Symbol, string>>, vars: map<string, Domain>,
                                           init: seq<string>, trans: seq<string>)

  /** The accepted values of `actions_must`: `None`, `'mutex'` and `'xor'`. */
  predicate KnownMust(actionsMust: Option<string>) {
    actionsMust.None? || actionsMust.value == "mutex" || actionsMust.value == "xor"
  }

  /** The action names as the boolean encoding writes them. */
  function ActionNames(actions: seq<Symbol>): (r: seq<string>)
    ensures |r| == |actions|
    ensures forall i | 0 <= i < |actions| :: r[i] == SymbolText(actions[i])
  {
    seq(|actions|, i requires 0 <= i < |actions| => SymbolText(actions[i]))
  }

  /** The constraint the boolean encoding puts on the actions: at most one of them
      (`mutex`) or exactly one (`xor`). */
  function ActionConstraint(names: seq<string>, minOne: bool): seq<Prop> {
    if minOne then ExactlyOneProps(names) else MutexProps(names)
  }

  function EncodeActions(actions: seq<Symbol>, actionvar: string, boolActions: bool, actionsMust: Option<string>): Result<ActionEncoding, SynthError> {
    if actions == [] then Ok(ActionEncoding(None, map[], [], []))
    else if !KnownMust(actionsMust) then
      Err(Exception("Unknown value: actions_must = " + actionsMust.value))
    else
      var useMutex := actionsMust.Some?;
      var minOne := actionsMust == Some("xor");
      if !useMutex || boolActions then Ok(BoolActionEncoding(actions, useMutex, minOne))
      else
        match IntActionEncoding(actions, actionvar, minOne)
        case Err(err) => Err(err)
        case Ok((ids, domain)) => Ok(ActionEncoding(Some(ids), map[actionvar := domain], [], []))
  }

  /** One boolean variable per action, named by the action; with `mutex` or `xor`, the
      constraint in the initial condition and, under `X`, in the safety formulas. */
  function BoolActionEncoding(actions: seq<Symbol>, useMutex: bool, minOne: bool): ActionEncoding {
    var names := ActionNames(actions);
    var ids := map a | a in actions :: SymbolText(a);
    var vars := map n | n in names :: Boolean;
    var m := Mutex(names);
    if m == [] || !useMutex then ActionEncoding(Some(ids), vars, [], [])
    else if !minOne then ActionEncoding(Some(ids), vars, m, ["X (" + m[0] + ")"])
    else
      var e := ExactlyOne(names);
      ActionEncoding(Some(ids), vars, e, ["X (" + e[0] + ")"])
  }

  /** Successful encodings give ids exactly when there are actions, and then an id to
      every action. */
  lemma EncodeActionsIds(actions: seq<Symbol>, actionvar: string, boolActions: bool, actionsMust: Option<string>)
    requires EncodeActions(actions, actionvar, boolActions, actionsMust).Ok?
    ensures var ids := EncodeActions(actions, actionvar, boolActions, actionsMust).value.ids;
            && (ids.None? <==> actions == [])
            && (ids.Some? ==> forall a | a in actions :: a in ids.value)
  {
  }

  /** The two errors of `create_actions`: an unknown `actions_must` value, and mixed
      integer and string actions under the integer encoding. */
  lemma EncodeActionsErrors(actions: seq<Symbol>, actionvar: string, boolActions: bool, actionsMust: Option<string>)
    requires EncodeActions(actions, actionvar, boolActions, actionsMust).Err?
    ensures var e := EncodeActions(actions, actionvar, boolActions, actionsMust).error;
            if KnownMust(actionsMust) then e == TypeError("cannot concatenate 'str' and 'int' objects")
            else e == Exception("Unknown value: actions_must = " + actionsMust.value)
  {
  }

  /** No actions: nothing is declared or constrained and the ids are `None`, whatever
      `actions_must` says. Otherwise encoding fails exactly for an unknown `actions_must`
      or for mixed integer and string actions under the integer encoding. */
  lemma EncodeActionsOutcome(actions: seq<Symbol>, actionvar: string, boolActions: bool, actionsMust: Option<string>)
    ensures actions == [] ==> EncodeActions(actions, actionvar, boolActions, actionsMust) == Ok(ActionEncoding(None, map[], [], []))
    ensures EncodeActions(actions, actionvar, boolActions, actionsMust).Err? <==>
            actions != [] &&
            (!KnownMust(actionsMust) ||
             (actionsMust.Some? && !boolActions &&
              (exists a | a in actions :: a.Int?) && (exists a | a in actions :: a.Str?)))
  {
    if actions != [] && KnownMust(actionsMust) && actionsMust.Some? && !boolActions {
      if !AllInt(actions) && exists a | a in actions :: a.Int? {
        var b :| b in actions && !b.Int?;
        assert b.Str?;
      }
    }
  }

  /** Under `actions_must = None` every action becomes a `boolean` variable named after
      it, with no constraint, even when integer actions were asked for. */
  lemma EncodeActionsUnconstrained(actions: seq<Symbol>, actionvar: string, boolActions: bool)
    requires actions != []
    ensures EncodeActions(actions, actionvar, boolActions, None).Ok?
    ensures var enc := EncodeActions(actions, actionvar, boolActions, None).value;
            && enc.init == [] && enc.trans == []
            && enc.vars.Keys == (set a | a in actions :: SymbolText(a))
            && (forall n | n in enc.vars :: enc.vars[n] == Boolean)
            && enc.ids == Some(map a | a in actions :: SymbolText(a))
  {
    var names := ActionNames(actions);
    assert (set n | n in names) == (set a | a in actions :: SymbolText(a)) by {
      forall a | a in actions ensures SymbolText(a) in names {
        var i :| 0 <= i < |actions| && actions[i] == a;
        assert names[i] == SymbolText(a);
      }
    }
  }

  /** With at least two non-empty names the constraint is one formula: it holds exactly
      when at most one of the non-empty names is true (`mutex`), or exactly one name is
      (`xor`). */
  lemma ActionConstraintMeaning(names: seq<string>, minOne: bool, now: set<string>, nxt: set<string>)
    requires |Outside(names, {""})| >= 2
    ensures |ActionConstraint(names, minOne)| == 1
    ensures Holds(ActionConstraint(names, minOne), now, nxt) <==>
            if minOne then (exists n | n in names :: n in now) && AtMostOne(names, now)
            else AtMostOne(Outside(names, {""}), now)
  {
    MutexMeaning(names, now, nxt);
    if minOne {
      ExactlyOneMeaning(names, now, nxt);
    }
  }

  /** The safety formula of a constrained boolean encoding reads the next state: it holds
      exactly when the constraint holds of the next state. */
  lemma ActionConstraintNext(names: seq<string>, minOne: bool, now: set<string>, nxt: set<string>)
    requires |ActionConstraint(names, minOne)| == 1
    ensures Holds([Next(true, Paren(ActionConstraint(names, minOne)[0]))], now, nxt) <==>
            Holds(ActionConstraint(names, minOne), nxt, nxt)
  {
    var c := ActionConstraint(names, minOne);
    assert Eval(Next(true, Paren(c[0])), now, nxt) == Eval(c[0], nxt, nxt);
    assert Holds(c, nxt, nxt) <==> Eval(c[0], nxt, nxt);
    var t := [Next(true, Paren(c[0]))];
    assert t[0] == Next(true, Paren(c[0]));
    assert Holds(t, now, nxt) <==> Eval(t[0], now, nxt);
  }

  /** Under `'mutex'` or `'xor'` with boolean actions and at least two non-empty names,
      the actions' constraint goes once into init and once, under `X `, into the safety
      list (see `ActionConstraintMeaning` and `ActionConstraintNext` for what they say). */
  lemma EncodeActionsConstrained(actions: seq<Symbol>, actionvar: string, actionsMust: Option<string>)
    requires actionsMust == Some("mutex") || actionsMust == Some("xor")
    requires |Outside(ActionNames(actions), {""})| >= 2
    ensures EncodeActions(actions, actionvar, true, actionsMust).Ok?
    ensures var enc := EncodeActions(actions, actionvar, true, actionsMust).value;
            var c := ActionConstraint(ActionNames(actions), actionsMust == Some("xor"));
            && |c| == 1
            && enc.init == ShowAll(c)
            && enc.trans == ShowAll([Next(true, Paren(c[0]))])
  {
    var names := ActionNames(actions);
    var minOne := actionsMust == Some("xor");
    var c := ActionConstraint(names, minOne);
    assert actions != [] && KnownMust(actionsMust);
    ActionConstraintMeaning(names, false, {}, {});
    ActionConstraintMeaning(names, minOne, {}, {});
    MutexShows(names);
    var m := Mutex(names);
    assert |m| == 1;
    var ids := map a | a in actions :: SymbolText(a);
    var vars := map n | n in names :: Boolean;
    var t := ShowAll(c);
    if minOne {
      ExactlyOneShows(names);
      assert t == ExactlyOne(names);
      assert EncodeActions(actions, actionvar, true, actionsMust) == Ok(ActionEncoding(Some(ids), vars, t, ["X (" + t[0] + ")"]));
    } else {
      assert t == m;
      assert EncodeActions(actions, actionvar, true, actionsMust) == Ok(ActionEncoding(Some(ids), vars, t, ["X (" + t[0] + ")"]));
    }
    NextSpaceShows(c[0]);
  }

  /** `X (q)`, the way the action constraint enters the safety list. */
  lemma NextSpaceShows(q: Prop)
    ensures Show(Next(true, Paren(q))) == "X (" + Show(q) + ")"
  {
    assert Show(Paren(q)) == "(" + Show(q) + ")";
    assert "X " + ("(" + Show(q) + ")") == "X (" + Show(q) + ")";
  }

  // ---------------------------------------------------------------------------
  // The caller's variables and formula lists

  /** One player's part of a GR(1) specification while it is being built: the variables
      declared so far and the init and safety formulas appended so far. */
  class SpecPart {
    var vars: map<string, Domain>
    var init: seq<string>
    var trans: seq<string>

    /** A part that starts from the given variables and empty formula lists. */
    constructor (vars0: map<string, Domain>)
      ensures vars == vars0 && init == [] && trans == []
    {
      vars := vars0;
      init := [];
      trans := [];
    }

    /** `create_states(states, variables, trans, statevar, bool_states)`. */
    method CreateStates(states: seq<string>, statevar: string, boolStates: bool) returns (ids: map<string, string>)
      modifies this
      ensures var enc := EncodeStates(states, statevar, boolStates);
              && ids == enc.ids
              && vars == old(vars) + enc.vars
              && trans == old(trans) + enc.trans
              && init == old(init)
    {
      ghost var enc := EncodeStates(states, statevar, boolStates);
      var useBool := boolStates;
      if |states| < 3 {
        useBool := true;
      }
      if useBool {
        assert BoolStates(states, boolStates);
        ids := map s | s in states :: s;
        var added := map s | s in states :: Boolean;
        assert added == enc.vars;
        vars := vars + added;
        trans := trans + ExactlyOne(states);
      } else {
        assert !BoolStates(states, boolStates);
        var domain;
        ids, domain := StatesToInts(states, statevar);
        assert vars[statevar := domain] == vars + enc.vars;
        vars := vars[statevar := domain];
      }
    }

    /** `create_actions(actions, variables, trans, init, actionvar, bool_actions,
        actions_must)`: on an error nothing has been changed. */
    method CreateActions(actions: seq<Symbol>, actionvar: string, boolActions: bool, actionsMust: Option<string>)
      returns (r: Result<Option<map<Symbol, string>>, SynthError>)
      modifies this
      ensures match EncodeActions(actions, actionvar, boolActions, actionsMust)
              case Err(e) =>
                r == Err(e) && vars == old(vars) && init == old(init) && trans == old(trans)
              case Ok(enc) =>
                r == Ok(enc.ids) && vars == old(vars) + enc.vars
                && init == old(init) + enc.init && trans == old(trans) + enc.trans
    {
      if actions == [] {
        return Ok(None);
      }
      var useMutex, minOne;
      if actionsMust.None? {
        useMutex, minOne := false, false;
      } else if actionsMust.value == "mutex" {
        useMutex, minOne := true, false;
      } else if actionsMust.value == "xor" {
        useMutex, minOne := true, true;
      } else {
        return Err(Exception("Unknown value: actions_must = " + actionsMust.value));
      }
      var useBool := boolActions;
      if !useMutex {
        useBool := true;
      }
      if useBool {
        assert EncodeActions(actions, actionvar, boolActions, actionsMust) ==
               Ok(BoolActionEncoding(actions, useMutex, minOne));
        var ids := AddBoolActions(actions, useMutex, minOne);
        r := Ok(Some(ids));
      } else {
        var enc := ActionsToInts(actions, actionvar, minOne);
        if enc.Err? {
          return Err(enc.error);
        }
        assert EncodeActions(actions, actionvar, boolActions, actionsMust) ==
               Ok(ActionEncoding(Some(enc.value.0), map[actionvar := enc.value.1], [], []));
        assert vars[actionvar := enc.value.1] == vars + map[actionvar := enc.value.1];
        assert init == old(init) + [] && trans == old(trans) + [];
        vars := vars[actionvar := enc.value.1];
        r := Ok(Some(enc.value.0));
      }
    }

    /** The boolean branch of `create_actions`: one variable per action, then the
        mutual exclusion constraints. */
    method AddBoolActions(actions: seq<Symbol>, useMutex: bool, minOne: bool) returns (ids: map<Symbol, string>)
      modifies this
      ensures var enc := BoolActionEncoding(actions, useMutex, minOne);
              && enc.ids == Some(ids) && vars == old(vars) + enc.vars
              && init == old(init) + enc.init && trans == old(trans) + enc.trans
    {
      var names := ActionNames(actions);
      ids := map a | a in actions :: SymbolText(a);
      vars := vars + map n | n in names :: Boolean;
      var m := Mutex(names);
      if m == [] || !useMutex {
        assert init == old(init) + [] && trans == old(trans) + [];
        return;
      }
      if !minOne {
        trans := trans + ["X (" + m[0] + ")"];
        init := init + m;
      } else {
        var e := ExactlyOne(names);
        trans := trans + ["X (" + e[0] + ")"];
        init := init + e;
      }
    }
  }
}
