/** The formula-string combinators of tulip/synth.py (`pstr`, `_disj`, `_conj`,
    `_conj_intersection`, `_conj_neg`, `_conj_neg_diff`, `mutex`, `exactly_one`,
    `_conj_action`, `sprint_aps`), each shown to print a `Prop` tree whose meaning is proved. */
module Combinators {
  import opened Wrappers
  import opened Text
  import opened TransSys
  import opened Prop

  /** `pstr(s)`. */
  function Pstr(s: string): string {
    "(" + s + ")"
  }

  /** The items of `xs` that belong to `ys`, in order (`[x for x in xs if x in ys]`). */
  function Inside(xs: seq<string>, ys: set<string>): (r: seq<string>)
    ensures |r| <= |xs|
    ensures forall x :: x in r <==> x in xs && x in ys
  {
    if xs == [] then [] else (if xs[0] in ys then [xs[0]] else []) + Inside(xs[1..], ys)
  }

  /** The items of `xs` that do not belong to `ys`, in order. */
  function Outside(xs: seq<string>, ys: set<string>): (r: seq<string>)
    ensures |r| <= |xs|
    ensures forall x :: x in r <==> x in xs && x !in ys
  {
    if xs == [] then [] else (if xs[0] in ys then [] else [xs[0]]) + Outside(xs[1..], ys)
  }

  lemma {:induction false} OutsideNothing(xs: seq<string>)
    ensures Outside(xs, {}) == xs
  {
    if xs != [] {
      OutsideNothing(xs[1..]);
    }
  }

  lemma InsideNothing(xs: seq<string>)
    ensures Inside(xs, {}) == []
  {
    assert forall x :: x !in Inside(xs, {});
  }

  /** Every item between `pre` and `post`. */
  function Wrap(xs: seq<string>, pre: string, post: string): (r: seq<string>)
    ensures |r| == |xs|
    ensures forall i | 0 <= i < |xs| :: r[i] == pre + xs[i] + post
  {
    seq(|xs|, i requires 0 <= i < |xs| => pre + xs[i] + post)
  }

  /** `_disj(items)`. */
  function Disj(items: seq<string>): string {
    Join(" || ", Wrap(items, "(", ")"))
  }

  /** `_conj(items)`. */
  function Conj(items: seq<string>): string {
    Join(" && ", Wrap(items, "(", ")"))
  }

  /** `_conj_intersection(xs, ys, parenth)`. */
  function ConjIntersection(xs: seq<string>, ys: set<string>, parenth: bool): string {
    Join(" && ", if parenth then Wrap(Inside(xs, ys), "(", ")") else Inside(xs, ys))
  }

  /** `_conj_neg(xs, parenth)`. */
  function ConjNeg(xs: seq<string>, parenth: bool): string {
    Join(" && ", if parenth then Wrap(xs, "!(", ")") else Wrap(xs, "!", ""))
  }

  /** `_conj_neg_diff(xs, ys, parenth)`. */
  function ConjNegDiff(xs: seq<string>, ys: set<string>, parenth: bool): string {
    ConjNeg(Outside(xs, ys), parenth)
  }

  // ---------------------------------------------------------------------------
  // The combinators print formula trees.

  lemma DisjShows(ps: seq<Prop>)
    ensures Disj(ShowAll(ps)) == Show(Any(Parens(ps)))
  {
    var qs := Parens(ps);
    assert seq(|qs|, i requires 0 <= i < |qs| => Show(qs[i])) == Wrap(ShowAll(ps), "(", ")");
  }

  lemma ConjShows(ps: seq<Prop>)
    ensures Conj(ShowAll(ps)) == Show(All(Parens(ps)))
  {
    var qs := Parens(ps);
    assert seq(|qs|, i requires 0 <= i < |qs| => Show(qs[i])) == Wrap(ShowAll(ps), "(", ")");
  }

  lemma ConjNegShows(xs: seq<string>, parenth: bool)
    ensures ConjNeg(xs, parenth) == Show(All(NegAtoms(xs, parenth)))
  {
    var qs := NegAtoms(xs, parenth);
    var texts := seq(|qs|, i requires 0 <= i < |qs| => Show(qs[i]));
    if parenth {
      forall i | 0 <= i < |xs| ensures texts[i] == "!(" + xs[i] + ")" {
        assert qs[i] == Neg(Paren(Atom(xs[i])));
        ShowNegParenAtom(xs[i]);
      }
      assert texts == Wrap(xs, "!(", ")");
    } else {
      forall i | 0 <= i < |xs| ensures texts[i] == "!" + xs[i] + "" {
        assert qs[i] == Neg(Atom(xs[i]));
        assert Show(Atom(xs[i])) == xs[i];
        assert "!" + xs[i] + "" == "!" + xs[i];
      }
      assert texts == Wrap(xs, "!", "");
    }
  }

  lemma ShowNegParenAtom(x: string)
    ensures Show(Neg(Paren(Atom(x)))) == "!(" + x + ")"
    ensures Show(Paren(Atom(x))) == "(" + x + ")"
  {
    assert Show(Atom(x)) == x;
    assert Show(Paren(Atom(x))) == "(" + x + ")";
  }

  lemma ConjIntersectionShows(xs: seq<string>, ys: set<string>)
    ensures ConjIntersection(xs, ys, false) == Show(All(Atoms(Inside(xs, ys))))
  {
    var qs := Atoms(Inside(xs, ys));
    assert seq(|qs|, i requires 0 <= i < |qs| => Show(qs[i])) == Inside(xs, ys);
  }

  // ---------------------------------------------------------------------------
  // mutex and exactly_one

  /** At most one distinct label of `xs` holds in `now`. */
  predicate AtMostOne(xs: seq<string>, now: set<string>) {
    forall x, y | x in xs && y in xs && x in now && y in now :: x == y
  }

  /** `mutex(labels)`: the empty label is dropped first. */
  function Mutex(labels: seq<string>): (r: seq<string>)
    ensures |r| <= 1
    ensures r == [] <==> |Outside(labels, {""})| <= 1
  {
    var f := Outside(labels, {""});
    if |f| <= 1 then []
    else [Conj(seq(|f|, i requires 0 <= i < |f| => "!(" + f[i] + ") || (" + ConjNegDiff(f, {f[i]}, true) + ")"))]
  }

  /** The clause of `mutex` for label `x`: `x` is false or every other label is. */
  function MutexClause(f: seq<string>, x: string): Prop {
    Or(Neg(Paren(Atom(x))), Paren(All(NegAtoms(Outside(f, {x}), true))))
  }

  function MutexProps(labels: seq<string>): seq<Prop> {
    var f := Outside(labels, {""});
    if |f| <= 1 then []
    else [All(Parens(seq(|f|, i requires 0 <= i < |f| => MutexClause(f, f[i]))))]
  }

  lemma MutexShows(labels: seq<string>)
    ensures Mutex(labels) == ShowAll(MutexProps(labels))
  {
    var f := Outside(labels, {""});
    if |f| > 1 {
      var clauses := seq(|f|, i requires 0 <= i < |f| => MutexClause(f, f[i]));
      forall i | 0 <= i < |f|
        ensures Show(clauses[i]) == "!(" + f[i] + ") || (" + ConjNegDiff(f, {f[i]}, true) + ")"
      {
        MutexClauseShows(f, f[i]);
      }
      assert ShowAll(clauses) == seq(|f|, i requires 0 <= i < |f| => "!(" + f[i] + ") || (" + ConjNegDiff(f, {f[i]}, true) + ")");
      ConjShows(clauses);
    }
  }

  lemma MutexClauseShows(f: seq<string>, x: string)
    ensures Show(MutexClause(f, x)) == "!(" + x + ") || (" + ConjNegDiff(f, {x}, true) + ")"
  {
    var rest := All(NegAtoms(Outside(f, {x}), true));
    ConjNegShows(Outside(f, {x}), true);
    ShowNegParenAtom(x);
    assert Show(Paren(rest)) == "(" + ConjNegDiff(f, {x}, true) + ")";
    assert Show(MutexClause(f, x)) == Show(Neg(Paren(Atom(x)))) + " || " + Show(Paren(rest));
  }

  lemma MutexClauseMeaning(f: seq<string>, x: string, now: set<string>, nxt: set<string>)
    ensures Eval(Paren(MutexClause(f, x)), now, nxt) <==> (x in now ==> forall y | y in f && y != x :: y !in now)
  {
    var rest := All(NegAtoms(Outside(f, {x}), true));
    EvalNegAtoms(Outside(f, {x}), true, now, nxt);
    assert Eval(Paren(Atom(x)), now, nxt) == (x in now);
    assert Eval(Paren(rest), now, nxt) == Eval(rest, now, nxt);
    assert Eval(MutexClause(f, x), now, nxt) == (!Eval(Paren(Atom(x)), now, nxt) || Eval(Paren(rest), now, nxt));
  }

  /** The formula of `mutex` holds exactly when at most one non-empty label holds. */
  lemma MutexMeaning(labels: seq<string>, now: set<string>, nxt: set<string>)
    ensures Holds(MutexProps(labels), now, nxt) <==> AtMostOne(Outside(labels, {""}), now)
  {
    var f := Outside(labels, {""});
    if |f| > 1 {
      var clauses := Parens(seq(|f|, i requires 0 <= i < |f| => MutexClause(f, f[i])));
      assert Holds(MutexProps(labels), now, nxt) <==> Eval(All(clauses), now, nxt);
      if AtMostOne(f, now) {
        forall i | 0 <= i < |f| ensures Eval(clauses[i], now, nxt) {
          MutexClauseMeaning(f, f[i], now, nxt);
        }
      }
      if Eval(All(clauses), now, nxt) {
        forall x, y | x in f && y in f && x in now && y in now ensures x == y {
          var i :| 0 <= i < |f| && f[i] == x;
          assert Eval(clauses[i], now, nxt);
          MutexClauseMeaning(f, f[i], now, nxt);
        }
      }
    } else if |f| == 1 {
      assert forall x | x in f :: x == f[0];
    }
  }

  /** `exactly_one(labels)`. */
  function ExactlyOne(labels: seq<string>): (r: seq<string>)
    ensures |labels| <= 1 ==> |r| == |labels|
    ensures |labels| > 1 ==> |r| == 1
  {
    if |labels| <= 1 then Wrap(labels, "(", ")")
    else ["(" + Disj(seq(|labels|, i requires 0 <= i < |labels| =>
                         "(" + labels[i] + ") && " + ConjNegDiff(labels, {labels[i]}, true))) + ")"]
  }

  /** The disjunct of `exactly_one` for label `x`: `x` holds and every other label is false. */
  function OnlyClause(labels: seq<string>, x: string): Prop {
    And(Paren(Atom(x)), All(NegAtoms(Outside(labels, {x}), true)))
  }

  /** One clause per label. */
  function OnlyClauses(labels: seq<string>): (r: seq<Prop>)
    ensures |r| == |labels|
    ensures forall i | 0 <= i < |labels| :: r[i] == OnlyClause(labels, labels[i])
  {
    seq(|labels|, i requires 0 <= i < |labels| => OnlyClause(labels, labels[i]))
  }

  function ExactlyOneProps(labels: seq<string>): seq<Prop> {
    if |labels| <= 1 then Parens(Atoms(labels))
    else [Paren(Any(Parens(OnlyClauses(labels))))]
  }

  lemma ExactlyOneShows(labels: seq<string>)
    ensures ExactlyOne(labels) == ShowAll(ExactlyOneProps(labels))
  {
    if |labels| <= 1 {
      forall i | 0 <= i < |labels| ensures ShowAll(ExactlyOneProps(labels))[i] == "(" + labels[i] + ")" {
        ShowNegParenAtom(labels[i]);
      }
    } else {
      var clauses := OnlyClauses(labels);
      forall i | 0 <= i < |labels|
        ensures Show(clauses[i]) == "(" + labels[i] + ") && " + ConjNegDiff(labels, {labels[i]}, true)
      {
        OnlyClauseShows(labels, labels[i]);
      }
      var texts := seq(|labels|, i requires 0 <= i < |labels| =>
                         "(" + labels[i] + ") && " + ConjNegDiff(labels, {labels[i]}, true));
      assert ShowAll(clauses) == texts;
      DisjShows(clauses);
      assert Show(Paren(Any(Parens(clauses)))) == "(" + Disj(texts) + ")";
    }
  }

  lemma OnlyClauseShows(labels: seq<string>, x: string)
    ensures Show(OnlyClause(labels, x)) == "(" + x + ") && " + ConjNegDiff(labels, {x}, true)
  {
    ConjNegShows(Outside(labels, {x}), true);
    ShowNegParenAtom(x);
  }

  /** The clause of `x` holds exactly when `x` holds and no other label does. */
  lemma OnlyClauseMeaning(labels: seq<string>, x: string, now: set<string>, nxt: set<string>)
    ensures Eval(OnlyClause(labels, x), now, nxt) <==> x in now && forall y | y in labels && y != x :: y !in now
  {
    EvalNegAtoms(Outside(labels, {x}), true, now, nxt);
    assert Eval(Paren(Atom(x)), now, nxt) == (x in now);
  }

  /** The disjunction of the clauses holds exactly when one distinct label holds. */
  lemma OnlyClausesMeaning(labels: seq<string>, now: set<string>, nxt: set<string>)
    ensures Eval(Any(Parens(OnlyClauses(labels))), now, nxt) <==>
            (exists x | x in labels :: x in now) && AtMostOne(labels, now)
  {
    var clauses := OnlyClauses(labels);
    EvalAnyParens(clauses, now, nxt);
    if exists i | 0 <= i < |clauses| :: Eval(clauses[i], now, nxt) {
      var i :| 0 <= i < |clauses| && Eval(clauses[i], now, nxt);
      OnlyClauseMeaning(labels, labels[i], now, nxt);
    }
    if (exists x | x in labels :: x in now) && AtMostOne(labels, now) {
      var x :| x in labels && x in now;
      var i :| 0 <= i < |labels| && labels[i] == x;
      OnlyClauseMeaning(labels, x, now, nxt);
      assert Eval(clauses[i], now, nxt);
    }
  }

  /** For a non-empty list the formulas of `exactly_one` hold exactly when one
      distinct label holds. A repeated label leaves an empty conjunction in the text
      (`((a) && ) || ((a) && )`), which is not well-formed LTL, so the meaning stated here
      is the intended one only for distinct labels; the drivers pass distinct state and
      action ids (`EncodeStatesDistinct`, `IntActionIdsDistinct`). */
  lemma ExactlyOneMeaning(labels: seq<string>, now: set<string>, nxt: set<string>)
    requires labels != []
    ensures Holds(ExactlyOneProps(labels), now, nxt) <==>
            (exists x | x in labels :: x in now) && AtMostOne(labels, now)
  {
    if |labels| == 1 {
      assert forall x | x in labels :: x == labels[0];
      assert Eval(Parens(Atoms(labels))[0], now, nxt) == (labels[0] in now);
    } else {
      var top := Paren(Any(Parens(OnlyClauses(labels))));
      assert ExactlyOneProps(labels) == [top];
      assert Holds([top], now, nxt) <==> Eval(top, now, nxt) by {
        assert [top][0] == top;
      }
      OnlyClausesMeaning(labels, now, nxt);
    }
  }

  /** Exactly one label holding implies that at most one does: the formula of
      `exactly_one` entails that of `mutex`. */
  lemma ExactlyOneImpliesMutex(labels: seq<string>, now: set<string>, nxt: set<string>)
    requires Holds(ExactlyOneProps(labels), now, nxt)
    ensures Holds(MutexProps(labels), now, nxt)
  {
    MutexMeaning(labels, now, nxt);
    if labels != [] {
      ExactlyOneMeaning(labels, now, nxt);
    }
  }

  // ---------------------------------------------------------------------------
  // _conj_action

  /** The action text `_conj_action` would print for the label's `k` entry, if any:
      the id under `ids` (the raw action when there are no ids), unless that is empty. */
  function ActionText(l: EdgeLabel, k: ActionKind, ids: Option<map<Symbol, string>>): (r: Option<string>)
    requires ids.Some? && LabelAction(l, k).Some? ==> LabelAction(l, k).value in ids.value
    ensures r.Some? ==> r.value != ""
  {
    match LabelAction(l, k)
    case None => None
    case Some(a) =>
      var action := if ids.Some? then ids.value[a] else SymbolText(a);
      if action == "" then None else Some(action)
  }

  /** `_conj_action(label, action_type, nxt, ids)`. */
  function ConjAction(l: EdgeLabel, k: ActionKind, nxt: bool, ids: Option<map<Symbol, string>>): string
    requires ids.Some? && LabelAction(l, k).Some? ==> LabelAction(l, k).value in ids.value
  {
    match ActionText(l, k, ids)
    case None => ""
    case Some(action) => if nxt then " && X" + Pstr(action) else " && " + Pstr(action)
  }

  /** `p` extended by the action conjunct `_conj_action` prints, if any. */
  function AddAction(p: Prop, l: EdgeLabel, k: ActionKind, nxt: bool, ids: Option<map<Symbol, string>>): Prop
    requires ids.Some? && LabelAction(l, k).Some? ==> LabelAction(l, k).value in ids.value
  {
    match ActionText(l, k, ids)
    case None => p
    case Some(a) => And(p, if nxt then Next(false, Paren(Atom(a))) else Paren(Atom(a)))
  }

  /** The conjunct appended for one action id, as text and as a tree. */
  lemma ActionConjunctShows(p: Prop, action: string, nxt: bool)
    ensures Show(And(p, if nxt then Next(false, Paren(Atom(action))) else Paren(Atom(action)))) ==
            Show(p) + (if nxt then " && X" + Pstr(action) else " && " + Pstr(action))
  {
    ShowNegParenAtom(action);
    if nxt {
      assert Show(Next(false, Paren(Atom(action)))) == "X" + Pstr(action);
    }
  }

  lemma AddActionShows(p: Prop, l: EdgeLabel, k: ActionKind, nxt: bool, ids: Option<map<Symbol, string>>)
    requires ids.Some? && LabelAction(l, k).Some? ==> LabelAction(l, k).value in ids.value
    ensures Show(AddAction(p, l, k, nxt, ids)) == Show(p) + ConjAction(l, k, nxt, ids)
    ensures ConjAction(l, k, nxt, ids) == "" <==> ActionText(l, k, ids).None?
  {
    var t := ActionText(l, k, ids);
    if t.Some? {
      ActionConjunctShows(p, t.value, nxt);
    }
  }

  /** The extended formula holds when `p` does and the action's id holds (in the next
      state when `nxt`). */
  lemma AddActionMeaning(p: Prop, l: EdgeLabel, k: ActionKind, nxt: bool, ids: Option<map<Symbol, string>>,
                         now: set<string>, next: set<string>)
    requires ids.Some? && LabelAction(l, k).Some? ==> LabelAction(l, k).value in ids.value
    ensures Eval(AddAction(p, l, k, nxt, ids), now, next) <==>
            Eval(p, now, next) && (ActionText(l, k, ids).Some? ==> ActionText(l, k, ids).value in (if nxt then next else now))
  {
    match ActionText(l, k, ids)
    case None =>
    case Some(a) =>
      assert Eval(Paren(Atom(a)), next, next) == (a in next);
      assert Eval(Paren(Atom(a)), now, next) == (a in now);
  }

  // ---------------------------------------------------------------------------
  // sprint_aps

  function TrueAps(l: StateLabel): set<string> {
    if l.ap.Some? then l.ap.value else {}
  }

  /** `sprint_aps(label, aps)`. */
  function SprintAps(l: StateLabel, aps: seq<string>): string {
    var tmp0 := if l.ap.Some? then ConjIntersection(aps, l.ap.value, false) else "";
    var tmp1 := if l.ap.Some? then ConjNegDiff(aps, l.ap.value, false) else ConjNeg(aps, false);
    if |tmp0| > 0 && |tmp1| > 0 then tmp0 + " && " + tmp1 else tmp0 + tmp1
  }

  /** The tree `sprint_aps` prints: the propositions of the label, then the negations of the others. */
  function ApProp(l: StateLabel, aps: seq<string>): Prop {
    var pos := All(Atoms(Inside(aps, TrueAps(l))));
    var neg := All(NegAtoms(Outside(aps, TrueAps(l)), false));
    if Show(pos) != "" && Show(neg) != "" then And(pos, neg)
    else if Show(pos) != "" then pos
    else neg
  }

  lemma ApPropShows(l: StateLabel, aps: seq<string>)
    ensures SprintAps(l, aps) == Show(ApProp(l, aps))
  {
    var pos := All(Atoms(Inside(aps, TrueAps(l))));
    var neg := All(NegAtoms(Outside(aps, TrueAps(l)), false));
    ConjIntersectionShows(aps, TrueAps(l));
    ConjNegShows(Outside(aps, TrueAps(l)), false);
    if l.ap.None? {
      OutsideNothing(aps);
      InsideNothing(aps);
      assert Show(pos) == "";
      assert ConjNeg(aps, false) == Show(neg);
    } else {
      assert ConjIntersection(aps, l.ap.value, false) == Show(pos);
      assert ConjNegDiff(aps, l.ap.value, false) == Show(neg);
    }
  }

  /** With non-empty proposition names, the text of `sprint_aps` is empty only when
      there are no propositions, and it holds exactly in the states whose true
      propositions are those of the label. */
  lemma ApPropMeaning(l: StateLabel, aps: seq<string>, now: set<string>, nxt: set<string>)
    requires "" !in aps
    ensures Show(ApProp(l, aps)) == "" <==> aps == []
    ensures Eval(ApProp(l, aps), now, nxt) <==> forall a | a in aps :: (a in now <==> a in TrueAps(l))
  {
    var ins, outs := Inside(aps, TrueAps(l)), Outside(aps, TrueAps(l));
    var pos := All(Atoms(ins));
    var neg := All(NegAtoms(outs, false));
    ShownEmpty(Atoms(ins));
    ShownEmpty(NegAtoms(outs, false));
    if ins != [] { assert ins[0] in aps; assert Show(Atoms(ins)[0]) != ""; }
    if outs != [] { assert Show(NegAtoms(outs, false)[0]) != ""; }
    if aps != [] { assert aps[0] in ins || aps[0] in outs; }
    EvalAtomsAll(ins, now, nxt);
    EvalNegAtoms(outs, false, now, nxt);
  }

  lemma ShownEmpty(ps: seq<Prop>)
    ensures Show(All(ps)) == "" <==> (|ps| <= 1 && forall i | 0 <= i < |ps| :: Show(ps[i]) == "")
  {
    JoinEmpty(" && ", seq(|ps|, i requires 0 <= i < |ps| => Show(ps[i])));
  }

  /** `Inside` and `Outside` split a sequence: every item lands in exactly one of them. */
  lemma {:induction false} SplitLength(xs: seq<string>, ys: set<string>)
    ensures |Inside(xs, ys)| + |Outside(xs, ys)| == |xs|
  {
    if xs != [] {
      SplitLength(xs[1..], ys);
    }
  }

  /** `sprint_aps` as the two joins it glues together, whatever the label. */
  lemma SprintApsParts(l: StateLabel, aps: seq<string>)
    ensures var t0 := Join(" && ", Inside(aps, TrueAps(l)));
            var t1 := Join(" && ", Wrap(Outside(aps, TrueAps(l)), "!", ""));
            SprintAps(l, aps) == if |t0| > 0 && |t1| > 0 then t0 + " && " + t1 else t0 + t1
  {
    if l.ap.None? {
      OutsideNothing(aps);
      InsideNothing(aps);
    }
  }

  /** With non-empty proposition names, `sprint_aps` is the conjunction of one literal per
      proposition: the propositions of the label first, in order, then the negations of
      the others. */
  lemma SprintApsLiterals(l: StateLabel, aps: seq<string>)
    requires "" !in aps
    ensures SprintAps(l, aps) == Join(" && ", Inside(aps, TrueAps(l)) + Wrap(Outside(aps, TrueAps(l)), "!", ""))
    ensures |Inside(aps, TrueAps(l)) + Wrap(Outside(aps, TrueAps(l)), "!", "")| == |aps|
  {
    var ins, outs := Inside(aps, TrueAps(l)), Outside(aps, TrueAps(l));
    var negs := Wrap(outs, "!", "");
    SprintApsParts(l, aps);
    JoinEmpty(" && ", ins);
    JoinEmpty(" && ", negs);
    if |ins| == 1 { assert ins[0] in aps; }
    if |negs| == 1 { assert negs[0] == "!" + outs[0]; }
    if ins != [] && negs != [] {
      JoinAppend(" && ", ins, negs);
    } else if ins == [] {
      assert ins + negs == negs;
    } else {
      assert ins + negs == ins;
    }
    SplitLength(aps, TrueAps(l));
  }
}
