/** result_set_ref as it works: on a tree of nodes that are overwritten in place,
    src/filter_session_shared.cpp:1000-1047. */
module RpnInPlace {
  import opened Databases
  import opened Rpn
  import opened Options

  /** A simple operand: a term, or the name of a result set. */
  datatype Operand = TermOperand(attributes: Option<string>, term: string) | ResultSetId(name: string)

  datatype Which = Simple(operand: Operand) | Complex(op: Operator, s1: RpnNode, s2: RpnNode)

  class RpnNode {
    var which: Which
    ghost var repr: set<RpnNode>

    ghost predicate Valid()
      reads this, repr
      ensures Valid() ==> this in repr
      decreases repr
    {
      && this in repr
      && (which.Complex? ==>
            && which.s1 in repr && which.s1.repr <= repr && this !in which.s1.repr && which.s1.Valid()
            && which.s2 in repr && which.s2.repr <= repr && this !in which.s2.repr && which.s2.Valid()
            && which.s1.repr !! which.s2.repr)
    }

    /** The tree below this node. */
    ghost function Tree(): Tree
      requires Valid()
      reads this, repr
      decreases repr
    {
      match which
      case Simple(TermOperand(attributes, term)) => Term(attributes, term)
      case Simple(ResultSetId(name)) => SetRef(name)
      case Complex(op, s1, s2) => Node(op, s1.Tree(), s2.Tree())
    }

    constructor (w: Which)
      requires w.Complex? ==> w.s1.Valid() && w.s2.Valid() && w.s1.repr !! w.s2.repr
      ensures Valid() && which == w
      ensures fresh(repr - if w.Complex? then w.s1.repr + w.s2.repr else {})
      ensures w.Complex? ==> Tree() == Node(w.op, w.s1.Tree(), w.s2.Tree())
    {
      which := w;
      repr := {this} + if w.Complex? then w.s1.repr + w.s2.repr else {};
    }
  }

  /** A fresh copy of a stored tree. */
  method Copy(t: Tree) returns (n: RpnNode)
    ensures n.Valid() && fresh(n.repr) && n.Tree() == t
  {
    match t
    case Term(attributes, term) => n := new RpnNode(Simple(TermOperand(attributes, term)));
    case SetRef(name) => n := new RpnNode(Simple(ResultSetId(name)));
    case Node(op, l, r) =>
      var s1 := Copy(l);
      var s2 := Copy(r);
      n := new RpnNode(Complex(op, s1, s2));
  }

  /** Overwrites a node that names a result set by the stored query, if there is a fitting one. */
  method Resolve(sets: FrontendSets, databases: seq<string>, s: RpnNode, name: string) returns (ret: Status)
    requires s.Valid() && s.which == Simple(ResultSetId(name))
    modifies s.repr
    ensures s.Valid() && fresh(s.repr - old(s.repr))
    ensures ret == Ok <==> Resolvable(sets, databases, name)
    ensures s.Tree() == if ret == Ok then sets[name].query.tree else SetRef(name)
  {
    if name !in sets {
      return NoSuchResultSet;
    }
    var same := Match(sets[name].databases, databases);
    if !same {
      return NoSuchResultSet;
    }
    match sets[name].query {
      case OtherType(_) =>
        ret := NoSuchResultSet;
      case Type1(_, tree) =>
        var q := Copy(tree);
        s.which := q.which;
        s.repr := {s} + (q.repr - {q});
        ret := Ok;
    }
  }

  method ResultSetRef(sets: FrontendSets, databases: seq<string>, s: RpnNode, rset: string)
    returns (ret: Status, rset': string)
    requires s.Valid()
    modifies s.repr
    ensures s.Valid() && fresh(s.repr - old(s.repr))
    ensures (ret, s.Tree(), rset') == Inline(sets, databases, old(s.Tree()), rset)
    decreases s.repr
  {
    hide Resolvable;
    match s.which {
      case Simple(TermOperand(_, _)) =>
        ret, rset' := Ok, rset;
      case Simple(ResultSetId(name)) =>
        rset' := name;
        ret := Resolve(sets, databases, s, name);
      case Complex(op, s1, s2) =>
        ret, rset' := ResultSetRef(sets, databases, s1, rset);
        s.repr := {s} + s1.repr + s2.repr;
        if ret == Ok {
          ret, rset' := ResultSetRef(sets, databases, s2, rset');
          s.repr := {s} + s1.repr + s2.repr;
        }
    }
  }
}
