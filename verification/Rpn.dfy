/** RPN queries that name earlier result sets, and their rewriting by result_set_ref,
    src/filter_session_shared.cpp:1000-1047. */
module Rpn {
  import opened Databases
  import opened Options

  datatype Operator = And | Or | AndNot | Proximity(distance: int)

  /** A query tree. A term may name its own attribute set; otherwise that of the query applies. */
  datatype Tree =
    | Term(attributes: Option<string>, term: string)
    | SetRef(name: string)
    | Node(op: Operator, left: Tree, right: Tree)

  /** A query of type 1 or 101 with its default attribute set, or one of another type. */
  datatype Query = Type1(attributeSet: string, tree: Tree) | OtherType(text: string)

  /** A result set as the frontend session remembers it. */
  datatype FrontendSet = FrontendSet(databases: seq<string>, query: Query)

  type FrontendSets = map<string, FrontendSet>

  datatype Status = Ok | NoSuchResultSet

  predicate RefFree(t: Tree) {
    match t
    case Term(_, _) => true
    case SetRef(_) => false
    case Node(_, l, r) => RefFree(l) && RefFree(r)
  }

  /** A stored query never names a result set itself. */
  predicate QueryRefFree(q: Query) {
    q.Type1? ==> RefFree(q.tree)
  }

  ghost predicate SetsRefFree(sets: FrontendSets) {
    forall n :: n in sets ==> QueryRefFree(sets[n].query)
  }

  // ---------- the rewriting ----------

  predicate Resolvable(sets: FrontendSets, databases: seq<string>, name: string) {
    name in sets && Same(sets[name].databases, databases) && sets[name].query.Type1?
  }

  /** The status, the tree as it is left, and the last name looked up. */
  function Inline(sets: FrontendSets, databases: seq<string>, t: Tree, rset: string): (r: (Status, Tree, string))
  {
    match t
    case Term(_, _) => (Ok, t, rset)
    case SetRef(name) =>
      if Resolvable(sets, databases, name) then (Ok, sets[name].query.tree, name) else (NoSuchResultSet, t, name)
    case Node(op, l, r) =>
      var (st1, l', rset1) := Inline(sets, databases, l, rset);
      if st1 != Ok then (st1, Node(op, l', r), rset1)
      else
        var (st2, r', rset2) := Inline(sets, databases, r, rset1);
        (st2, Node(op, l', r'), rset2)
  }

  function Names(t: Tree): seq<string> {
    match t
    case Term(_, _) => []
    case SetRef(name) => [name]
    case Node(_, l, r) => Names(l) + Names(r)
  }

  /** Rewriting succeeds exactly when every name can be resolved, and then leaves no name. When it
      fails, the name reported is the first, from the left, that cannot. */
  lemma {:induction false} InlineStatus(sets: FrontendSets, databases: seq<string>, t: Tree, rset: string)
    ensures var (st, t', name) := Inline(sets, databases, t, rset);
            && (st == Ok <==> forall n :: n in Names(t) ==> Resolvable(sets, databases, n))
            && (st == Ok && SetsRefFree(sets) ==> RefFree(t'))
            && (st != Ok ==> exists i :: 0 <= i < |Names(t)| && FirstFailure(sets, databases, Names(t), i, name))
  {
    match t
    case Term(_, _) =>
    case SetRef(name) =>
      assert Names(t)[0] == name;
      if !Resolvable(sets, databases, name) {
        assert FirstFailure(sets, databases, Names(t), 0, name);
      }
    case Node(op, l, r) =>
      InlineStatus(sets, databases, l, rset);
      var (st1, l', rset1) := Inline(sets, databases, l, rset);
      if st1 != Ok {
        var i :| 0 <= i < |Names(l)| && FirstFailure(sets, databases, Names(l), i, rset1);
        assert FirstFailure(sets, databases, Names(t), i, rset1);
        assert Names(t)[i] in Names(t);
      } else {
        InlineStatus(sets, databases, r, rset1);
        var (st2, r', rset2) := Inline(sets, databases, r, rset1);
        if st2 != Ok {
          var i :| 0 <= i < |Names(r)| && FirstFailure(sets, databases, Names(r), i, rset2);
          var k := |Names(l)| + i;
          forall j | 0 <= j < k ensures Resolvable(sets, databases, Names(t)[j]) {
            if j < |Names(l)| { assert Names(t)[j] == Names(l)[j]; } else { assert Names(t)[j] == Names(r)[j - |Names(l)|]; }
          }
          assert FirstFailure(sets, databases, Names(t), k, rset2);
          assert Names(t)[k] in Names(t);
        }
      }
  }

  /** A query that names no result set is left as it is. */
  lemma {:induction false} InlineRefFree(sets: FrontendSets, databases: seq<string>, t: Tree, rset: string)
    requires RefFree(t)
    ensures Inline(sets, databases, t, rset) == (Ok, t, rset)
  {
    match t
    case Term(_, _) =>
    case Node(_, l, r) =>
      InlineRefFree(sets, databases, l, rset);
      InlineRefFree(sets, databases, r, rset);
  }

  ghost predicate FirstFailure(sets: FrontendSets, databases: seq<string>, names: seq<string>, i: nat, name: string) {
    && i < |names| && names[i] == name && !Resolvable(sets, databases, name)
    && forall j :: 0 <= j < i ==> Resolvable(sets, databases, names[j])
  }

  // ---------- meaning ----------

  /** What a target makes of a query: the result for a term under an attribute set, and the
      combination of two results. */
  datatype Algebra<!D> = Algebra(term: (string, string) -> D, combine: (Operator, D, D) -> D)

  /** The result of a tree under a default attribute set, result set names taken from env. */
  function Eval<D>(a: Algebra<D>, attributeSet: string, t: Tree, env: string -> D): D {
    match t
    case Term(own, term) => a.term(if own.Some? then own.value else attributeSet, term)
    case SetRef(name) => env(name)
    case Node(op, l, r) => a.combine(op, Eval(a, attributeSet, l, env), Eval(a, attributeSet, r, env))
  }

  /** Each name bound to the result of the query stored under it. */
  function Stored<D>(a: Algebra<D>, sets: FrontendSets, env: string -> D): string -> D {
    (name: string) =>
      if name in sets && sets[name].query.Type1?
      then Eval(a, sets[name].query.attributeSet, sets[name].query.tree, env)
      else env(name)
  }

  /** Every term of the tree names its own attribute set. */
  predicate Explicit(t: Tree) {
    match t
    case Term(own, _) => own.Some?
    case SetRef(_) => true
    case Node(_, l, r) => Explicit(l) && Explicit(r)
  }

  /** No named result set relies on a default attribute set other than the new query's. */
  predicate SameAttributes(sets: FrontendSets, attributeSet: string, t: Tree) {
    match t
    case Term(_, _) => true
    case SetRef(name) =>
      name in sets && sets[name].query.Type1? ==>
        sets[name].query.attributeSet == attributeSet || Explicit(sets[name].query.tree)
    case Node(_, l, r) => SameAttributes(sets, attributeSet, l) && SameAttributes(sets, attributeSet, r)
  }

  lemma {:induction false} EvalDefault<D>(a: Algebra<D>, x: string, y: string, t: Tree, env: string -> D, env': string -> D)
    requires RefFree(t) && (x == y || Explicit(t))
    ensures Eval(a, x, t, env) == Eval(a, y, t, env')
  {
    match t
    case Term(_, _) =>
    case Node(_, l, r) =>
      EvalDefault(a, x, y, l, env, env');
      EvalDefault(a, x, y, r, env, env');
  }

  /** When rewriting succeeds and attribute sets agree, the rewritten tree means, for every target and
      without looking at any name, what the original means with each name bound to its stored result. */
  lemma {:induction false} InlinePreservesMeaning<D>(a: Algebra<D>, sets: FrontendSets, databases: seq<string>, attributeSet: string,
                                                    t: Tree, rset: string, env: string -> D, env': string -> D)
    requires SetsRefFree(sets) && Inline(sets, databases, t, rset).0 == Ok
    requires SameAttributes(sets, attributeSet, t)
    ensures Eval(a, attributeSet, Inline(sets, databases, t, rset).1, env') == Eval(a, attributeSet, t, Stored(a, sets, env))
  {
    match t
    case Term(_, _) =>
    case SetRef(name) =>
      var q := sets[name].query;
      EvalDefault(a, q.attributeSet, attributeSet, q.tree, env, env');
    case Node(op, l, r) =>
      InlinePreservesMeaning(a, sets, databases, attributeSet, l, rset, env, env');
      InlinePreservesMeaning(a, sets, databases, attributeSet, r, Inline(sets, databases, l, rset).2, env, env');
  }

  /** The target that tells all queries apart: a result records terms with the attribute set used. */
  function Free(): Algebra<Tree> {
    Algebra((attributes, term) => Term(Some(attributes), term), (op, l, r) => Node(op, l, r))
  }

  lemma {:induction false} FreeEvalDefault(x: string, y: string, t: Tree, env: string -> Tree, env': string -> Tree)
    requires RefFree(t)
    ensures Eval(Free(), x, t, env) == Eval(Free(), y, t, env') <==> x == y || Explicit(t)
  {
    match t
    case Term(_, _) =>
    case Node(_, l, r) =>
      FreeEvalDefault(x, y, l, env, env');
      FreeEvalDefault(x, y, r, env, env');
  }

  /** Agreement of attribute sets is also needed: for the target that tells all queries apart,
      meaning is preserved only then. */
  lemma {:induction false} InlineNeedsSameAttributes(sets: FrontendSets, databases: seq<string>, attributeSet: string,
                                                    t: Tree, rset: string, env: string -> Tree, env': string -> Tree)
    requires SetsRefFree(sets) && Inline(sets, databases, t, rset).0 == Ok
    ensures Eval(Free(), attributeSet, Inline(sets, databases, t, rset).1, env') == Eval(Free(), attributeSet, t, Stored(Free(), sets, env))
            <==> SameAttributes(sets, attributeSet, t)
  {
    match t
    case Term(_, _) =>
    case SetRef(name) =>
      var q := sets[name].query;
      FreeEvalDefault(attributeSet, q.attributeSet, q.tree, env', env);
    case Node(op, l, r) =>
      InlineNeedsSameAttributes(sets, databases, attributeSet, l, rset, env, env');
      InlineNeedsSameAttributes(sets, databases, attributeSet, r, Inline(sets, databases, l, rset).2, env, env');
  }

  /** A set stored under attribute set "bib-1" and named by a query under "gils": the rewritten query
      asks for the stored term under "gils". */
  lemma InlineCanChangeMeaning(env: string -> Tree)
    ensures var dbs := ["Default"];
            var sets: FrontendSets := map["a" := FrontendSet(dbs, Type1("bib-1", Term(None, "water")))];
            var (st, t', _) := Inline(sets, dbs, SetRef("a"), "");
            && st == Ok
            && Eval(Free(), "gils", t', env) == Term(Some("gils"), "water")
            && Eval(Free(), "gils", SetRef("a"), Stored(Free(), sets, env)) == Term(Some("bib-1"), "water")
  {
    assert Same(["Default"], ["Default"]);
  }
}
