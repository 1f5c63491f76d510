/** A formula tree for the GR(1) text the encoder writes. `Show` prints a tree in the
    gr1c/JTLV operator dialect exactly as the encoder's string building does, and `Eval`
    gives its meaning over one step: the atoms true now and the atoms true next. Every
    formula string of the encoder is proved to be `Show` of such a tree, so the lemmas
    about `Eval` say what the strings mean. */
module Prop {
  import opened Text

  datatype Prop =
    | Atom(name: string)               // a variable or a state/action id such as `loc = 3`
    | Lit(value: bool)                 // `True` / `False`
    | Paren(body: Prop)                // `(body)`
    | Neg(arg: Prop)                   // `!arg`
    | And(left: Prop, right: Prop)     // `left && right`
    | Or(left: Prop, right: Prop)      // `left || right`
    | Implies(left: Prop, right: Prop) // `left -> right`
    | Next(spaced: bool, arg: Prop)    // `Xarg`, or `X arg` when spaced
    | All(args: seq<Prop>)             // the items joined by ` && ` (true when empty)
    | Any(args: seq<Prop>)             // the items joined by ` || ` (false when empty)

  function Show(p: Prop): string {
    match p
    case Atom(x) => x
    case Lit(b) => if b then "True" else "False"
    case Paren(q) => "(" + Show(q) + ")"
    case Neg(q) => "!" + Show(q)
    case And(a, b) => Show(a) + " && " + Show(b)
    case Or(a, b) => Show(a) + " || " + Show(b)
    case Implies(a, b) => Show(a) + " -> " + Show(b)
    case Next(sp, q) => (if sp then "X " else "X") + Show(q)
    case All(ps) => Join(" && ", seq(|ps|, i requires 0 <= i < |ps| => Show(ps[i])))
    case Any(ps) => Join(" || ", seq(|ps|, i requires 0 <= i < |ps| => Show(ps[i])))
  }

  /** The text of a list of formulas, one string per formula. */
  function ShowAll(ps: seq<Prop>): (r: seq<string>)
    ensures |r| == |ps|
    ensures forall i | 0 <= i < |ps| :: r[i] == Show(ps[i])
  {
    seq(|ps|, i requires 0 <= i < |ps| => Show(ps[i]))
  }

  /** Truth of `p` when the atoms in `now` hold in the current state and those in `nxt`
      in the next one. The encoder never nests `X`, so `X` simply moves to `nxt`. */
  predicate Eval(p: Prop, now: set<string>, nxt: set<string>) {
    match p
    case Atom(x) => x in now
    case Lit(b) => b
    case Paren(q) => Eval(q, now, nxt)
    case Neg(q) => !Eval(q, now, nxt)
    case And(a, b) => Eval(a, now, nxt) && Eval(b, now, nxt)
    case Or(a, b) => Eval(a, now, nxt) || Eval(b, now, nxt)
    case Implies(a, b) => Eval(a, now, nxt) ==> Eval(b, now, nxt)
    case Next(_, q) => Eval(q, nxt, nxt)
    case All(ps) => forall i | 0 <= i < |ps| :: Eval(ps[i], now, nxt)
    case Any(ps) => exists i | 0 <= i < |ps| :: Eval(ps[i], now, nxt)
  }

  /** A list of formulas is read as their conjunction (the GR(1) lists are). */
  predicate Holds(ps: seq<Prop>, now: set<string>, nxt: set<string>) {
    forall i | 0 <= i < |ps| :: Eval(ps[i], now, nxt)
  }

  lemma HoldsAppend(a: seq<Prop>, b: seq<Prop>, now: set<string>, nxt: set<string>)
    ensures Holds(a + b, now, nxt) <==> Holds(a, now, nxt) && Holds(b, now, nxt)
  {
    if Holds(a, now, nxt) && Holds(b, now, nxt) {
      forall i | 0 <= i < |a + b| ensures Eval((a + b)[i], now, nxt) {
        if i >= |a| { assert (a + b)[i] == b[i - |a|]; }
      }
    }
    if Holds(a + b, now, nxt) {
      forall i | 0 <= i < |a| ensures Eval(a[i], now, nxt) {
        assert (a + b)[i] == a[i];
      }
      forall i | 0 <= i < |b| ensures Eval(b[i], now, nxt) {
        assert (a + b)[|a| + i] == b[i];
      }
    }
  }

  lemma ShowAllAppend(a: seq<Prop>, b: seq<Prop>)
    ensures ShowAll(a + b) == ShowAll(a) + ShowAll(b)
  {
  }

  /** Each item wrapped in parentheses: the shape of `_disj` and `_conj` items. */
  function Parens(ps: seq<Prop>): (r: seq<Prop>)
    ensures |r| == |ps|
    ensures forall i | 0 <= i < |ps| :: r[i] == Paren(ps[i])
  {
    seq(|ps|, i requires 0 <= i < |ps| => Paren(ps[i]))
  }

  /** Each name as an atom. */
  function Atoms(xs: seq<string>): (r: seq<Prop>)
    ensures |r| == |xs|
    ensures forall i | 0 <= i < |xs| :: r[i] == Atom(xs[i])
  {
    seq(|xs|, i requires 0 <= i < |xs| => Atom(xs[i]))
  }

  /** Each name negated; `parenth` chooses `!(x)` or `!x`. */
  function NegAtoms(xs: seq<string>, parenth: bool): (r: seq<Prop>)
    ensures |r| == |xs|
    ensures forall i | 0 <= i < |xs| :: r[i] == Neg(if parenth then Paren(Atom(xs[i])) else Atom(xs[i]))
  {
    seq(|xs|, i requires 0 <= i < |xs| => Neg(if parenth then Paren(Atom(xs[i])) else Atom(xs[i])))
  }

  lemma EvalAll(ps: seq<Prop>, now: set<string>, nxt: set<string>)
    ensures Eval(All(ps), now, nxt) <==> Holds(ps, now, nxt)
  {
  }

  lemma EvalAtomsAll(xs: seq<string>, now: set<string>, nxt: set<string>)
    ensures Eval(All(Atoms(xs)), now, nxt) <==> forall x | x in xs :: x in now
  {
    if Eval(All(Atoms(xs)), now, nxt) {
      forall x | x in xs ensures x in now {
        var i :| 0 <= i < |xs| && xs[i] == x;
        assert Eval(Atoms(xs)[i], now, nxt);
      }
    }
  }

  lemma EvalNegAtoms(xs: seq<string>, parenth: bool, now: set<string>, nxt: set<string>)
    ensures Eval(All(NegAtoms(xs, parenth)), now, nxt) <==> forall x | x in xs :: x !in now
  {
    var ps := NegAtoms(xs, parenth);
    forall i | 0 <= i < |xs| ensures Eval(ps[i], now, nxt) <==> xs[i] !in now {
      if parenth {
        assert ps[i] == Neg(Paren(Atom(xs[i])));
        assert Eval(Paren(Atom(xs[i])), now, nxt) == Eval(Atom(xs[i]), now, nxt);
      } else {
        assert ps[i] == Neg(Atom(xs[i]));
      }
    }
    if Eval(All(ps), now, nxt) {
      forall x | x in xs ensures x !in now {
        var i :| 0 <= i < |xs| && xs[i] == x;
        assert Eval(ps[i], now, nxt);
      }
    }
  }

  lemma EvalAnyParens(ps: seq<Prop>, now: set<string>, nxt: set<string>)
    ensures Eval(Any(Parens(ps)), now, nxt) <==> exists i | 0 <= i < |ps| :: Eval(ps[i], now, nxt)
  {
    if Eval(Any(Parens(ps)), now, nxt) {
      var i :| 0 <= i < |ps| && Eval(Parens(ps)[i], now, nxt);
      assert Eval(ps[i], now, nxt);
    }
    if exists i | 0 <= i < |ps| :: Eval(ps[i], now, nxt) {
      var i :| 0 <= i < |ps| && Eval(ps[i], now, nxt);
      assert Eval(Parens(ps)[i], now, nxt);
    }
  }
}
