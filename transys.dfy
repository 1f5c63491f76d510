/** The finite transition systems the encoder consumes (the source's `transys` package,
    which is not part of this model, reduced to the data the encoder reads). */
module TransSys {
  import opened Wrappers
  import opened Text

  /** An action: the source's action sets hold strings or Python ints. */
  datatype Symbol = Int(i: int) | Str(s: string)

  /** `str(a)`. */
  function SymbolText(a: Symbol): (r: string)
    ensures a.Int? ==> r != ""
  {
    match a
    case Int(i) => IntToString(i)
    case Str(s) => s
  }

  /** A state label: its optional `'ap'` entry, the set of atomic propositions that hold. */
  datatype StateLabel = StateLabel(ap: Option<set<string>>)

  /** A transition label: its optional `'actions'`, `'sys_actions'` and `'env_actions'` entries. */
  datatype EdgeLabel = EdgeLabel(actions: Option<Symbol>, sysActions: Option<Symbol>, envActions: Option<Symbol>)

  /** The three label keys the encoder reads. */
  datatype ActionKind = Actions | SysActions | EnvActions

  function LabelAction(l: EdgeLabel, k: ActionKind): Option<Symbol> {
    match k
    case Actions => l.actions
    case SysActions => l.sysActions
    case EnvActions => l.envActions
  }

  /** One labelled transition `(from_state, to_state, label)`. */
  datatype Edge = Edge(src: string, dst: string, edgeLabel: EdgeLabel)

  /** A closed system (`FTS`) or an open one (`OpenFTS`, whose actions are split
      between the environment and the system). Python sets become sequences
      without repetition; their order fixes the iteration order. */
  datatype TransitionSystem =
    | Fts(states: seq<string>, initial: seq<string>, labels: map<string, StateLabel>,
          aps: seq<string>, actions: seq<Symbol>, transitions: seq<Edge>)
    | OpenFts(states: seq<string>, initial: seq<string>, labels: map<string, StateLabel>,
              aps: seq<string>, envActions: seq<Symbol>, sysActions: seq<Symbol>,
              transitions: seq<Edge>)

  /** `states.label_of(s)`: an unlabelled state has no `'ap'` entry. */
  function LabelOf(labels: map<string, StateLabel>, s: string): StateLabel {
    if s in labels then labels[s] else StateLabel(None)
  }

  /** `trans.find([s])`: the transitions leaving `s`, in the order they were added. */
  function OutEdges(trans: seq<Edge>, s: string): (r: seq<Edge>)
    ensures |r| <= |trans|
    ensures forall e :: e in r <==> e in trans && e.src == s
  {
    if trans == [] then []
    else (if trans[0].src == s then [trans[0]] else []) + OutEdges(trans[1..], s)
  }

  predicate NoDup<T(==)>(xs: seq<T>) {
    forall i, j | 0 <= i < j < |xs| :: xs[i] != xs[j]
  }

  /** Every tag of kind `k` on the transitions belongs to `alphabet`, when the alphabet
      is not empty (with an empty alphabet the encoder prints tags as they are). */
  predicate TagsIn(trans: seq<Edge>, k: ActionKind, alphabet: seq<Symbol>) {
    |alphabet| > 0 ==>
      forall e | e in trans :: LabelAction(e.edgeLabel, k).Some? ==> LabelAction(e.edgeLabel, k).value in alphabet
  }

  /** What the `transys` package guarantees of the systems it builds: states, propositions
      and actions are sets, initial states and transition ends are declared states, and a
      transition's action tag belongs to the declared alphabet. */
  predicate WellFormed(ts: TransitionSystem) {
    && NoDup(ts.states) && NoDup(ts.initial) && NoDup(ts.aps)
    && (forall s | s in ts.initial :: s in ts.states)
    && (forall e | e in ts.transitions :: e.src in ts.states && e.dst in ts.states)
    && match ts
       case Fts(_, _, _, _, actions, trans) =>
         NoDup(actions) && TagsIn(trans, Actions, actions)
       case OpenFts(_, _, _, _, envActions, sysActions, trans) =>
         NoDup(envActions) && NoDup(sysActions)
         && TagsIn(trans, EnvActions, envActions) && TagsIn(trans, SysActions, sysActions)
  }
}
