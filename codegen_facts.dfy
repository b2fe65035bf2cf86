/** Properties of the code generator's functions: literal collection, the string
    classifier, string concatenation, the expression lowering, `const`, exits, the
    statement loop and the layout of the document. */
module CodeGenFacts {
  import opened Wrappers
  import opened Text
  import opened Ast
  import V = Values
  import opened Asm
  import opened CodeGen

  // ---------------------------------------------------------------------------
  // collect_string_literals

  /** The string literals `collect_string_literals` visits, in visiting order. */
  function Literals(e: Expr): seq<string>
    decreases e, 1
  {
    match e
    case StringLiteral(s) => [s]
    case Print(inner) => Literals(inner)
    case Exit(inner) => Literals(inner)
    case Const(_, value) => Literals(value)
    case BinaryOp(_, l, r) => Literals(l) + Literals(r)
    case Array(elements) => LiteralsAll(elements)
    case _ => []
  }

  function LiteralsAll(es: seq<Expr>): seq<string>
    decreases es, 0
  {
    if es == [] then [] else Literals(es[0]) + LiteralsAll(es[1..])
  }

  /** The texts of `lits` not in `seen`, each once, in order of first occurrence. */
  function Dedup(seen: seq<string>, lits: seq<string>): seq<string>
    decreases |lits|
  {
    if lits == [] then []
    else if lits[0] in seen then Dedup(seen, lits[1..])
    else [lits[0]] + Dedup(seen + [lits[0]], lits[1..])
  }

  predicate Distinct(t: seq<string>)
  {
    forall i, j :: 0 <= i < j < |t| ==> t[i] != t[j]
  }

  /** What `Dedup` keeps: only unseen texts of `lits`, none twice, and every text of
      `lits` is seen or kept. */
  lemma DedupProps(seen: seq<string>, lits: seq<string>)
    ensures forall x :: x in Dedup(seen, lits) ==> x in lits && x !in seen
    ensures forall x :: x in lits ==> x in seen || x in Dedup(seen, lits)
    ensures Distinct(seen) ==> Distinct(seen + Dedup(seen, lits))
  {
    DedupKeepsUnseen(seen, lits);
    DedupCovers(seen, lits);
    if Distinct(seen) {
      DedupDistinct(seen, lits);
    }
  }

  lemma {:induction false} DedupKeepsUnseen(seen: seq<string>, lits: seq<string>)
    ensures forall x :: x in Dedup(seen, lits) ==> x in lits && x !in seen
    decreases |lits|
  {
    if lits != [] {
      var x0 := lits[0];
      if x0 in seen {
        DedupKeepsUnseen(seen, lits[1..]);
      } else {
        DedupKeepsUnseen(seen + [x0], lits[1..]);
      }
      assert forall x :: x in lits[1..] ==> x in lits;
    }
  }

  lemma {:induction false} DedupCovers(seen: seq<string>, lits: seq<string>)
    ensures forall x :: x in lits ==> x in seen || x in Dedup(seen, lits)
    decreases |lits|
  {
    if lits != [] {
      var x0 := lits[0];
      if x0 in seen {
        DedupCovers(seen, lits[1..]);
      } else {
        DedupCovers(seen + [x0], lits[1..]);
      }
      assert forall x :: x in lits ==> x == x0 || x in lits[1..];
    }
  }

  lemma {:induction false} DedupDistinct(seen: seq<string>, lits: seq<string>)
    requires Distinct(seen)
    ensures Distinct(seen + Dedup(seen, lits))
    decreases |lits|
  {
    if lits == [] {
      assert seen + Dedup(seen, lits) == seen;
    } else {
      var x0 := lits[0];
      if x0 in seen {
        DedupDistinct(seen, lits[1..]);
      } else {
        var s1 := seen + [x0];
        forall i, j | 0 <= i < j < |s1| ensures s1[i] != s1[j] {
          if j == |seen| { assert s1[i] in seen; }
        }
        DedupDistinct(s1, lits[1..]);
        AppendAssoc3(seen, [x0], Dedup(s1, lits[1..]));
      }
    }
  }

  lemma {:induction false} DedupAppend(seen: seq<string>, a: seq<string>, b: seq<string>)
    ensures Dedup(seen, a + b) == Dedup(seen, a) + Dedup(seen + Dedup(seen, a), b)
    decreases |a|
  {
    if a == [] {
      assert a + b == b;
      assert seen + [] == seen;
    } else {
      DropAppend(a, b, 1);
      var x0, a1 := a[0], a[1..];
      assert (a + b)[0] == x0 && (a + b)[1..] == a1 + b;
      if x0 in seen {
        DedupAppend(seen, a1, b);
      } else {
        var s1 := seen + [x0];
        DedupAppend(s1, a1, b);
        var d := Dedup(s1, a1);
        assert Dedup(seen, a) == [x0] + d;
        AppendAssoc(seen, [x0], d, [x0] + d);
        assert [x0] + (d + Dedup(s1 + d, b)) == ([x0] + d) + Dedup(s1 + d, b);
      }
    }
  }

  /** Label `msg<i>` for the `i`-th text. */
  function LabelsOf(t: seq<string>): (r: Labels)
    ensures |r| == |t| && forall i :: 0 <= i < |t| ==> r[i] == (MsgLabel(i), t[i])
  {
    if t == [] then [] else LabelsOf(t[..|t| - 1]) + [(MsgLabel(|t| - 1), t[|t| - 1])]
  }

  /** One `msg<i> db "<text>", 0` line per text. */
  function DefsOf(t: seq<string>): (r: seq<DataLine>)
    ensures |r| == |t| && forall i :: 0 <= i < |t| ==> r[i] == Define(MsgLabel(i), '"', t[i], false)
  {
    if t == [] then [] else DefsOf(t[..|t| - 1]) + [Define(MsgLabel(|t| - 1), '"', t[|t| - 1], false)]
  }

  /** The collection state once the distinct texts `t` have been seen, after `base`. */
  function Collected(t: seq<string>, base: seq<DataLine>): Collection
  {
    Collection(LabelsOf(t), |t|, base + DefsOf(t))
  }

  lemma LabelsOfSnoc(t: seq<string>, s: string)
    ensures LabelsOf(t + [s]) == LabelsOf(t) + [(MsgLabel(|t|), s)]
    ensures DefsOf(t + [s]) == DefsOf(t) + [Define(MsgLabel(|t|), '"', s, false)]
  {
    assert (t + [s])[..|t|] == t;
  }

  /** A text has a label exactly when it has been seen. */
  lemma FindLabelSeen(t: seq<string>, s: string)
    ensures FindLabel(LabelsOf(t), s).Some? <==> s in t
  {
    var labels := LabelsOf(t);
    if s in t {
      var i :| 0 <= i < |t| && t[i] == s;
      assert labels[i].1 == s;
    } else {
      assert forall i :: 0 <= i < |labels| ==> labels[i].1 == t[i];
    }
  }

  lemma AddLiteralDedup(t: seq<string>, base: seq<DataLine>, s: string)
    ensures AddLiteral(Collected(t, base), s) == Collected(t + Dedup(t, [s]), base)
  {
    FindLabelSeen(t, s);
    if s in t {
      assert Dedup(t, [s]) == Dedup(t, []) == [];
      assert t + [] == t;
    } else {
      assert Dedup(t, [s]) == [s] + Dedup(t + [s], []);
      LabelsOfSnoc(t, s);
      assert base + DefsOf(t) + [Define(MsgLabel(|t|), '"', s, false)] == base + DefsOf(t + [s]);
    }
  }

  /** The walk gives label `msg<k>` to the `k`-th distinct literal: collecting `e` extends
      the texts by exactly the literals of `e` not yet seen, in first-occurrence order. */
  lemma {:induction false} CollectDedup(e: Expr, t: seq<string>, base: seq<DataLine>)
    ensures Collect(e, Collected(t, base)) == Collected(t + Dedup(t, Literals(e)), base)
    decreases e, 1
  {
    if e.StringLiteral? {
      AddLiteralDedup(t, base, e.s);
    } else if e.BinaryOp? {
      CollectBinaryDedup(e, t, base);
    } else if e.Array? {
      CollectArrayDedup(e, t, base);
    } else if e.Print? || e.Exit? || e.Const? {
      CollectWrappedDedup(e, t, base);
    } else {
      CollectLeafDedup(e, t, base);
    }
  }

  lemma {:induction false} CollectWrappedDedup(e: Expr, t: seq<string>, base: seq<DataLine>)
    requires e.Print? || e.Exit? || e.Const?
    ensures Collect(e, Collected(t, base)) == Collected(t + Dedup(t, Literals(e)), base)
    decreases e, 0
  {
    var c := Collected(t, base);
    match e
    case Print(inner) =>
      assert Collect(e, c) == Collect(inner, c) && Literals(e) == Literals(inner);
      CollectDedup(inner, t, base);
    case Exit(code) =>
      assert Collect(e, c) == Collect(code, c) && Literals(e) == Literals(code);
      CollectDedup(code, t, base);
    case Const(_, value) =>
      assert Collect(e, c) == Collect(value, c) && Literals(e) == Literals(value);
      CollectDedup(value, t, base);
  }

  lemma {:induction false} CollectArrayDedup(e: Expr, t: seq<string>, base: seq<DataLine>)
    requires e.Array?
    ensures Collect(e, Collected(t, base)) == Collected(t + Dedup(t, Literals(e)), base)
    decreases e, 0
  {
    var c := Collected(t, base);
    assert Collect(e, c) == CollectAll(e.elements, c) && Literals(e) == LiteralsAll(e.elements);
    CollectAllDedup(e.elements, t, base);
  }

  /** Nodes the walk does not enter contribute nothing. */
  lemma CollectLeafDedup(e: Expr, t: seq<string>, base: seq<DataLine>)
    requires !(e.StringLiteral? || e.BinaryOp? || e.Array? || e.Print? || e.Exit? || e.Const?)
    ensures Collect(e, Collected(t, base)) == Collected(t + Dedup(t, Literals(e)), base)
  {
    assert Collect(e, Collected(t, base)) == Collected(t, base) && Literals(e) == [];
    assert t + [] == t;
  }

  lemma {:induction false} CollectBinaryDedup(e: Expr, t: seq<string>, base: seq<DataLine>)
    requires e.BinaryOp?
    ensures Collect(e, Collected(t, base)) == Collected(t + Dedup(t, Literals(e)), base)
    decreases e, 0
  {
    var l, r := e.left, e.right;
    var d1 := Dedup(t, Literals(l));
    var t1 := t + d1;
    var d2 := Dedup(t1, Literals(r));
    CollectDedup(l, t, base);
    CollectDedup(r, t1, base);
    DedupAppend(t, Literals(l), Literals(r));
    CollectBinaryStep(e, Collected(t, base));
    AppendAssoc(t, d1, d2, Dedup(t, Literals(e)));
  }

  lemma CollectBinaryStep(e: Expr, c: Collection)
    requires e.BinaryOp?
    ensures Collect(e, c) == Collect(e.right, Collect(e.left, c))
    ensures Literals(e) == Literals(e.left) + Literals(e.right)
  {
  }

  lemma CollectAllStep(es: seq<Expr>, c: Collection)
    requires es != []
    ensures CollectAll(es, c) == CollectAll(es[1..], Collect(es[0], c))
    ensures LiteralsAll(es) == Literals(es[0]) + LiteralsAll(es[1..])
  {
  }

  lemma AppendAssoc(t: seq<string>, d1: seq<string>, d2: seq<string>, d: seq<string>)
    requires d == d1 + d2
    ensures t + d == (t + d1) + d2
  {
  }

  lemma {:induction false} CollectAllDedup(es: seq<Expr>, t: seq<string>, base: seq<DataLine>)
    ensures CollectAll(es, Collected(t, base)) == Collected(t + Dedup(t, LiteralsAll(es)), base)
    decreases es, 0
  {
    if es != [] {
      var d1 := Dedup(t, Literals(es[0]));
      var t1 := t + d1;
      var d2 := Dedup(t1, LiteralsAll(es[1..]));
      CollectDedup(es[0], t, base);
      CollectAllDedup(es[1..], t1, base);
      DedupAppend(t, Literals(es[0]), LiteralsAll(es[1..]));
      CollectAllStep(es, Collected(t, base));
      AppendAssoc(t, d1, d2, Dedup(t, LiteralsAll(es)));
    } else {
      assert t + [] == t;
    }
  }

  /** Labels minted from different counter values differ. */
  lemma MsgLabelInjective(i: nat, j: nat)
    requires MsgLabel(i) == MsgLabel(j)
    ensures i == j
  {
    assert MsgLabel(i)[3..] == NatToString(i) && MsgLabel(j)[3..] == NatToString(j);
    NatToStringInjective(i, j);
  }

  /** The labels of distinct counter values are distinct, and distinct texts keep their
      entries apart in both components. */
  lemma LabelsOfDistinct(t: seq<string>)
    ensures forall i, j :: 0 <= i < j < |t| ==> LabelsOf(t)[i].0 != LabelsOf(t)[j].0
    ensures Distinct(t) ==> forall i, j :: 0 <= i < j < |t| ==> LabelsOf(t)[i].1 != LabelsOf(t)[j].1
  {
    forall i, j | 0 <= i < j < |t| ensures LabelsOf(t)[i].0 != LabelsOf(t)[j].0 {
      if LabelsOf(t)[i].0 == LabelsOf(t)[j].0 { MsgLabelInjective(i, j); }
    }
  }

  /** The literal collection of a whole program: the `k`-th distinct literal, in order of
      first occurrence, gets label `msg<k>` and a `db "<text>", 0` line after the fixed
      buffers; the counter ends at the number of distinct literals; labels are pairwise
      distinct, and so are their texts; every literal of the program has a label. */
  lemma CollectProgram(stmts: seq<Expr>)
    ensures var d := Dedup([], LiteralsAll(stmts));
      CollectAll(stmts, Collection([], 0, InitialData)) == Collection(LabelsOf(d), |d|, InitialData + DefsOf(d))
    ensures var labels := CollectAll(stmts, Collection([], 0, InitialData)).labels;
      (forall i, j :: 0 <= i < j < |labels| ==> labels[i].0 != labels[j].0 && labels[i].1 != labels[j].1) &&
      (forall s :: s in LiteralsAll(stmts) ==> FindLabel(labels, s).Some?)
  {
    var d := Dedup([], LiteralsAll(stmts));
    assert Collection([], 0, InitialData) == Collected([], InitialData);
    CollectAllDedup(stmts, [], InitialData);
    assert [] + d == d;
    DedupProps([], LiteralsAll(stmts));
    LabelsOfDistinct(d);
    forall s | s in LiteralsAll(stmts) ensures FindLabel(LabelsOf(d), s).Some? {
      FindLabelSeen(d, s);
    }
  }

  // ---------------------------------------------------------------------------
  // is_string_expr and generate_string_concat

  /** The operands of a tree of `+` nodes, left to right. */
  function AddLeaves(e: Expr): (r: seq<Expr>)
    ensures |r| >= 1
  {
    if e.BinaryOp? && e.op == Add then AddLeaves(e.left) + AddLeaves(e.right) else [e]
  }

  /** A string literal, or a name bound to a string constant. */
  predicate StringLeaf(e: Expr, consts: Constants)
  {
    e.StringLiteral? || (e.Variable? && e.name in consts && consts[e.name].String?)
  }

  predicate HasStringLeaf(leaves: seq<Expr>, consts: Constants)
  {
    exists i :: 0 <= i < |leaves| && StringLeaf(leaves[i], consts)
  }

  lemma HasStringLeafAppend(a: seq<Expr>, b: seq<Expr>, consts: Constants)
    ensures HasStringLeaf(a + b, consts) <==> HasStringLeaf(a, consts) || HasStringLeaf(b, consts)
  {
    if HasStringLeaf(a, consts) {
      var i :| 0 <= i < |a| && StringLeaf(a[i], consts);
      assert (a + b)[i] == a[i];
    }
    if HasStringLeaf(b, consts) {
      var i :| 0 <= i < |b| && StringLeaf(b[i], consts);
      assert (a + b)[|a| + i] == b[i];
    }
    if HasStringLeaf(a + b, consts) {
      var i :| 0 <= i < |a + b| && StringLeaf((a + b)[i], consts);
      if i < |a| { assert (a + b)[i] == a[i]; } else { assert (a + b)[i] == b[i - |a|]; }
    }
  }

  /** An expression is a string expression exactly when one of the operands of its
      `+` tree is a string literal or a string constant; any other operator, an unbound
      name and every other leaf are not. */
  lemma {:induction false} IsStringExprLeaves(e: Expr, consts: Constants)
    ensures IsStringExpr(e, consts) <==> HasStringLeaf(AddLeaves(e), consts)
  {
    if e.BinaryOp? && e.op == Add {
      IsStringExprLeaves(e.left, consts);
      IsStringExprLeaves(e.right, consts);
      HasStringLeafAppend(AddLeaves(e.left), AddLeaves(e.right), consts);
    } else {
      assert AddLeaves(e) == [e];
      if StringLeaf(e, consts) {
        assert AddLeaves(e)[0] == e;
      }
      assert IsStringExpr(e, consts) <==> StringLeaf(e, consts);
    }
  }

  /** The append blocks of the leaves, in order, stopping at the first that fails. */
  function LeavesCode(leaves: seq<Expr>, consts: Constants, labels: Labels): Code
  {
    if leaves == [] then Ok([])
    else Then(LeafConcatCode(leaves[0], consts, labels), LeavesCode(leaves[1..], consts, labels))
  }

  lemma ThenAssoc(a: Code, b: Code, c: Code)
    ensures Then(Then(a, b), c) == Then(a, Then(b, c))
  {
    if a.Ok? && b.Ok? && c.Ok? {
      assert (a.value + b.value) + c.value == a.value + (b.value + c.value);
    }
  }

  lemma ThenUnit(a: Code)
    ensures Then(Ok([]), a) == a && Then(a, Ok([])) == a
  {
    if a.Ok? {
      assert [] + a.value == a.value && a.value + [] == a.value;
    }
  }

  lemma {:induction false} LeavesCodeAppend(a: seq<Expr>, b: seq<Expr>, consts: Constants, labels: Labels)
    ensures LeavesCode(a + b, consts, labels) == Then(LeavesCode(a, consts, labels), LeavesCode(b, consts, labels))
  {
    if a == [] {
      assert a + b == b;
      ThenUnit(LeavesCode(b, consts, labels));
    } else {
      assert (a + b)[0] == a[0] && (a + b)[1..] == a[1..] + b;
      LeavesCodeAppend(a[1..], b, consts, labels);
      ThenAssoc(LeafConcatCode(a[0], consts, labels), LeavesCode(a[1..], consts, labels), LeavesCode(b, consts, labels));
    }
  }

  /** `generate_string_concat` emits one append block per operand of the `+` tree, left to
      right, and fails with the first operand that has none. */
  lemma {:induction false} ConcatCodeLeaves(e: Expr, consts: Constants, labels: Labels)
    ensures ConcatCode(e, consts, labels) == LeavesCode(AddLeaves(e), consts, labels)
  {
    if e.BinaryOp? && e.op == Add {
      ConcatCodeLeaves(e.left, consts, labels);
      ConcatCodeLeaves(e.right, consts, labels);
      LeavesCodeAppend(AddLeaves(e.left), AddLeaves(e.right), consts, labels);
    } else {
      assert AddLeaves(e) == [e] && [e][1..] == [];
      ThenUnit(LeafConcatCode(e, consts, labels));
    }
  }

  /** Leaf `k` is the first without an append block. */
  predicate FirstFailing(leaves: seq<Expr>, k: int, consts: Constants, labels: Labels)
  {
    0 <= k < |leaves| && LeafConcatCode(leaves[k], consts, labels).Err? &&
    forall j :: 0 <= j < k ==> LeafConcatCode(leaves[j], consts, labels).Ok?
  }

  /** The fold succeeds exactly when every leaf has an append block; otherwise the error
      is that of the first leaf without one. */
  lemma {:induction false} LeavesCodeResult(leaves: seq<Expr>, consts: Constants, labels: Labels)
    ensures LeavesCode(leaves, consts, labels).Ok? <==>
      forall i :: 0 <= i < |leaves| ==> LeafConcatCode(leaves[i], consts, labels).Ok?
    ensures forall k :: FirstFailing(leaves, k, consts, labels) ==>
      LeavesCode(leaves, consts, labels) == LeafConcatCode(leaves[k], consts, labels)
  {
    if leaves != [] {
      LeavesCodeResult(leaves[1..], consts, labels);
      assert forall i :: 1 <= i < |leaves| ==> leaves[i] == leaves[1..][i - 1];
      forall k | FirstFailing(leaves, k, consts, labels)
        ensures LeavesCode(leaves, consts, labels) == LeafConcatCode(leaves[k], consts, labels)
      {
        if k > 0 {
          assert FirstFailing(leaves[1..], k - 1, consts, labels);
        }
      }
    }
  }

  /** A non-`+` operator among the operands of the tree is fatal once it is reached. */
  lemma ConcatRejectsOperator(e: Expr, k: nat, consts: Constants, labels: Labels)
    requires k < |AddLeaves(e)| && AddLeaves(e)[k].BinaryOp?
    requires forall j :: 0 <= j < k ==> LeafConcatCode(AddLeaves(e)[j], consts, labels).Ok?
    ensures FirstFailing(AddLeaves(e), k, consts, labels)
    ensures ConcatCode(e, consts, labels) == Err(UnsupportedInConcat)
  {
    ConcatCodeLeaves(e, consts, labels);
    LeavesCodeResult(AddLeaves(e), consts, labels);
  }

  /** Every operand of a `+` tree is itself not a `+` node. */
  lemma {:induction false} AddLeavesAreLeaves(e: Expr)
    ensures forall i :: 0 <= i < |AddLeaves(e)| ==> !(AddLeaves(e)[i].BinaryOp? && AddLeaves(e)[i].op == Add)
  {
    if e.BinaryOp? && e.op == Add {
      AddLeavesAreLeaves(e.left);
      AddLeavesAreLeaves(e.right);
      var ll, rl := AddLeaves(e.left), AddLeaves(e.right);
      assert AddLeaves(e) == ll + rl;
      forall i | 0 <= i < |AddLeaves(e)| ensures !(AddLeaves(e)[i].BinaryOp? && AddLeaves(e)[i].op == Add) {
        if i < |ll| { assert AddLeaves(e)[i] == ll[i]; } else { assert AddLeaves(e)[i] == rl[i - |ll|]; }
      }
    }
  }

  // ---------------------------------------------------------------------------
  // generate_expression_code

  function OperatorCount(e: Expr): nat
  {
    if e.BinaryOp? then 1 + OperatorCount(e.left) + OperatorCount(e.right) else 0
  }

  /** Occurrences of `l` in `code`. */
  function Count(code: seq<Line>, l: Line): nat
  {
    if code == [] then 0 else Count(code[..|code| - 1], l) + (if code[|code| - 1] == l then 1 else 0)
  }

  lemma {:induction false} CountAppend(a: seq<Line>, b: seq<Line>, l: Line)
    ensures Count(a + b, l) == Count(a, l) + Count(b, l)
  {
    if b != [] {
      assert (a + b)[..|a + b| - 1] == a + b[..|b| - 1];
      CountAppend(a, b[..|b| - 1], l);
    } else {
      assert a + b == a;
    }
  }

  lemma {:induction false} CountNone(code: seq<Line>, l: Line)
    requires forall i :: 0 <= i < |code| ==> code[i] != l
    ensures Count(code, l) == 0
  {
    if code != [] {
      CountNone(code[..|code| - 1], l);
    }
  }

  lemma CountOne(l: Line, m: Line)
    ensures Count([l], m) == if l == m then 1 else 0
  {
    assert [l][..0] == [];
  }

  /** The count over the shape of an operator node's code. */
  lemma CountNode(rc: seq<Line>, lc: seq<Line>, oc: seq<Line>, l: Line)
    ensures Count(rc + ([Push("rax")] + (lc + ([Pop("rbx")] + oc))), l) ==
      Count(rc, l) + Count([Push("rax")], l) + Count(lc, l) + Count([Pop("rbx")], l) + Count(oc, l)
  {
    CountAppend(rc, [Push("rax")] + (lc + ([Pop("rbx")] + oc)), l);
    CountAppend([Push("rax")], lc + ([Pop("rbx")] + oc), l);
    CountAppend(lc, [Pop("rbx")] + oc, l);
    CountAppend([Pop("rbx")], oc, l);
  }

  /** The code of an operator node: right operand, `push rax`, left operand, `pop rbx`,
      operator. */
  lemma ExprCodeNode(e: Expr, consts: Constants, div: DivLowering)
    requires e.BinaryOp? && ExprCode(e, consts, div).Ok?
    ensures ExprCode(e.left, consts, div).Ok? && ExprCode(e.right, consts, div).Ok?
    ensures ExprCode(e, consts, div).value == ExprCode(e.right, consts, div).value + ([Push("rax")] +
      (ExprCode(e.left, consts, div).value + ([Pop("rbx")] + OpCode(e.op, div))))
  {
    var rc, lc := ExprCode(e.right, consts, div), ExprCode(e.left, consts, div);
    var tail := [Pop("rbx")] + OpCode(e.op, div);
    var t1 := Then(rc, Ok([Push("rax")]));
    var t2 := Then(t1, lc);
    assert ExprCode(e, consts, div) == Then(t2, Ok(tail));
    assert rc.Ok? && lc.Ok?;
    assert ExprCode(e, consts, div).value == rc.value + [Push("rax")] + lc.value + tail;
    AppendAssoc3(rc.value + [Push("rax")], lc.value, tail);
    AppendAssoc3(rc.value, [Push("rax")], lc.value + tail);
  }

  /** The code of a leaf is a single `mov` into `rax`. */
  lemma ExprCodeLeaf(e: Expr, consts: Constants, div: DivLowering)
    requires !e.BinaryOp? && ExprCode(e, consts, div).Ok?
    ensures exists n :: ExprCode(e, consts, div).value == [Mov("rax", n)]
  {
    if e.Number? {
      assert ExprCode(e, consts, div).value == [Mov("rax", e.n)];
    } else if e.Boolean? {
      assert ExprCode(e, consts, div).value == [Mov("rax", BoolInt(e.b))];
    } else {
      var c := consts[e.name];
      assert ExprCode(e, consts, div).value == [Mov("rax", if c.Number? then c.n else BoolInt(c.b))];
    }
  }

  /** Each operator node emits exactly one `push rax` and one `pop rbx`, so the lowering
      of an expression pushes as often as it pops. */
  lemma {:induction false} ExprCodeBalanced(e: Expr, consts: Constants, div: DivLowering)
    requires ExprCode(e, consts, div).Ok?
    ensures Count(ExprCode(e, consts, div).value, Push("rax")) == OperatorCount(e)
    ensures Count(ExprCode(e, consts, div).value, Pop("rbx")) == OperatorCount(e)
  {
    var code := ExprCode(e, consts, div).value;
    if e.BinaryOp? {
      var rc, lc := ExprCode(e.right, consts, div).value, ExprCode(e.left, consts, div).value;
      var oc := OpCode(e.op, div);
      ExprCodeNode(e, consts, div);
      ExprCodeBalanced(e.left, consts, div);
      ExprCodeBalanced(e.right, consts, div);
      CountNode(rc, lc, oc, Push("rax"));
      CountNode(rc, lc, oc, Pop("rbx"));
      CountOne(Push("rax"), Push("rax"));
      CountOne(Push("rax"), Pop("rbx"));
      CountOne(Pop("rbx"), Push("rax"));
      CountOne(Pop("rbx"), Pop("rbx"));
      OpCodeNoStack(e.op, div);
    } else {
      ExprCodeLeaf(e, consts, div);
      var n :| code == [Mov("rax", n)];
      CountOne(Mov("rax", n), Push("rax"));
      CountOne(Mov("rax", n), Pop("rbx"));
    }
  }

  lemma OpCodeNoStack(op: BinOp, div: DivLowering)
    ensures Count(OpCode(op, div), Push("rax")) == 0 && Count(OpCode(op, div), Pop("rbx")) == 0
  {
    var code := OpCode(op, div);
    assert forall i :: 0 <= i < |code| ==> code[i].Ins? && code[i].op != "push" && code[i].op != "pop";
    CountNone(code, Push("rax"));
    CountNone(code, Pop("rbx"));
  }

  /** No tree the parser builds is a string expression. */
  lemma {:induction false} ParserExprNotString(e: Expr, consts: Constants)
    requires IsParserExpr(e)
    ensures !IsStringExpr(e, consts)
  {
    if e.BinaryOp? {
      ParserExprNotString(e.left, consts);
      ParserExprNotString(e.right, consts);
    }
  }

  /** Every tree the parser builds lowers without error, whatever the constants. */
  lemma {:induction false} ParserExprCompiles(e: Expr, consts: Constants, div: DivLowering)
    requires IsParserExpr(e)
    ensures ExprCode(e, consts, div).Ok?
  {
    if e.BinaryOp? {
      ParserExprNotString(e.left, consts);
      ParserExprNotString(e.right, consts);
      ParserExprCompiles(e.left, consts, div);
      ParserExprCompiles(e.right, consts, div);
    }
  }

  // ---------------------------------------------------------------------------
  // const declarations

  /** Redeclaring a name is fatal, whatever the new value; for a literal value the
      reason is the redeclaration. */
  lemma ConstRedeclaredFatal(g: Gen, name: string, value: Expr)
    requires name in g.consts
    ensures ConstStmt(g, name, value).Err?
    ensures IsLiteralForm(value) ==> ConstStmt(g, name, value) == Err(ConstRedeclared(name))
  {
  }

  /** A value other than a literal is fatal. */
  lemma ConstNonLiteralFatal(g: Gen, name: string, value: Expr)
    requires !IsLiteralForm(value)
    ensures ConstStmt(g, name, value) == Err(NonLiteralConst)
  {
  }

  predicate IsScalarLiteral(e: Expr)
  {
    e.Number? || e.Float? || e.StringLiteral? || e.Boolean? || e.Null?
  }

  /** Array elements must be scalar literals; the first one that is not is fatal. */
  lemma {:induction false} ElementValuesOk(es: seq<Expr>)
    ensures ElementValues(es).Ok? <==> forall i :: 0 <= i < |es| ==> IsScalarLiteral(es[i])
    ensures ElementValues(es).Err? ==> ElementValues(es).error == NonLiteralArrayElement
  {
    if es != [] {
      ElementValuesOk(es[1..]);
      assert forall i :: 1 <= i < |es| ==> es[i] == es[1..][i - 1];
    }
  }

  lemma ConstArrayRule(g: Gen, name: string, es: seq<Expr>)
    requires name !in g.consts
    ensures ConstStmt(g, name, Array(es)).Ok? <==> forall i :: 0 <= i < |es| ==> IsScalarLiteral(es[i])
  {
    ElementValuesOk(es);
  }

  /** A successful declaration binds `name`, which was unbound, and leaves every other
      binding, the counter and the emitted code before it as they were; it adds one
      comment line, and a data line exactly for a string. */
  lemma ConstBinds(g: Gen, name: string, value: Expr)
    requires ConstStmt(g, name, value).Ok?
    ensures var r := ConstStmt(g, name, value).value;
      name !in g.consts && name in r.consts && r.consts.Keys == g.consts.Keys + {name} &&
      (forall n :: n in g.consts ==> r.consts[n] == g.consts[n]) &&
      r.counter == g.counter && r.text[..|g.text|] == g.text && |r.text| == |g.text| + 1 &&
      r.data[..|g.data|] == g.data && (|r.data| > |g.data| <==> value.StringLiteral?)
  {
    var r := ConstStmt(g, name, value).value;
    assert r.text[..|g.text|] == g.text;
    assert r.data[..|g.data|] == g.data;
  }

  // ---------------------------------------------------------------------------
  // The statement loop

  /** `g2` extends `g1`: code and data only appended, the counter never goes back, and
      every binding stays. */
  predicate Extends(g1: Gen, g2: Gen)
  {
    g1.text <= g2.text && g1.data <= g2.data && g1.counter <= g2.counter &&
    forall n :: n in g1.consts ==> n in g2.consts && g2.consts[n] == g1.consts[n]
  }

  /** Literal numbers and floats printed: each takes one label from the counter. */
  function NumberedPrints(stmts: seq<Expr>): nat
  {
    if stmts == [] then 0
    else (if stmts[0].Print? && (stmts[0].inner.Number? || stmts[0].inner.Float?) then 1 else 0) + NumberedPrints(stmts[1..])
  }

  lemma StepExtends(g: Gen, stmt: Expr, labels: Labels, div: DivLowering)
    requires Step(g, stmt, labels, div).Ok?
    ensures Extends(g, Step(g, stmt, labels, div).value)
    ensures Step(g, stmt, labels, div).value.counter ==
      g.counter + (if stmt.Print? && (stmt.inner.Number? || stmt.inner.Float?) then 1 else 0)
    ensures stmt.Exit? ==> |Step(g, stmt, labels, div).value.text| > |g.text|
  {
    var r := Step(g, stmt, labels, div).value;
    if stmt.Const? {
      ConstBinds(g, stmt.name, stmt.value);
    } else if stmt.Exit? {
      var c := ExitStmt(stmt.code, g.consts, div).value;
      assert |c| > 0 by {
        if !stmt.code.Number? && !stmt.code.Variable? {
          assert c[|c| - 1] == Blank;
        }
      }
    }
  }

  /** The loop only appends code and data, keeps every binding, and advances the counter
      once per printed number or float literal. */
  lemma {:induction false} LoopExtends(stmts: seq<Expr>, g: Gen, labels: Labels, div: DivLowering)
    requires StatementLoop(stmts, g, labels, div).Ok?
    ensures Extends(g, StatementLoop(stmts, g, labels, div).value)
    ensures StatementLoop(stmts, g, labels, div).value.counter == g.counter + NumberedPrints(stmts)
    ensures HasExit(stmts) ==> |StatementLoop(stmts, g, labels, div).value.text| > |g.text|
    decreases |stmts|
  {
    if stmts != [] {
      var next := Step(g, stmts[0], labels, div).value;
      StepExtends(g, stmts[0], labels, div);
      LoopExtends(stmts[1..], next, labels, div);
      if HasExit(stmts) && !stmts[0].Exit? {
        var i :| 0 <= i < |stmts| && stmts[i].Exit?;
        assert stmts[1..][i - 1].Exit?;
      }
    }
  }

  /** Each statement's code ends with a blank line or a comment, never a `syscall`. */
  lemma StepEnd(g: Gen, stmt: Expr, labels: Labels, div: DivLowering)
    requires Step(g, stmt, labels, div).Ok?
    ensures var t := Step(g, stmt, labels, div).value.text;
      t == g.text || (|t| > 0 && t[|t| - 1] != Syscall())
  {
    match stmt
    case Print(inner) =>
      var c := PrintStmt(inner, g.counter, g.consts, labels, div).value.code;
      PrintEnd(inner, g.counter, g.consts, labels, div);
      LastOfAppend(g.text, c);
    case Exit(code) =>
      var c := ExitStmt(code, g.consts, div).value;
      ExitEnd(code, g.consts, div);
      LastOfAppend(g.text, c);
    case Const(name, value) =>
    case _ =>
  }

  lemma LastOfAppend(a: seq<Line>, b: seq<Line>)
    requires |b| > 0
    ensures |a + b| > 0 && (a + b)[|a + b| - 1] == b[|b| - 1]
  {
  }

  lemma ExitEnd(code: Expr, consts: Constants, div: DivLowering)
    requires ExitStmt(code, consts, div).Ok?
    ensures var c := ExitStmt(code, consts, div).value; |c| > 0 && c[|c| - 1] == Blank
  {
  }

  lemma PrintEnd(inner: Expr, counter: nat, consts: Constants, labels: Labels, div: DivLowering)
    requires PrintStmt(inner, counter, consts, labels, div).Ok?
    ensures var c := PrintStmt(inner, counter, consts, labels, div).value.code; |c| > 0 && c[|c| - 1] == Blank
  {
    match inner
    case StringLiteral(s) =>
      WriteEnd([Comment("Print: " + s)], FindLabel(labels, s).value, Utf8Length(s) + 1);
    case Boolean(b) =>
      WriteEnd([Comment("Print boolean: " + V.BoolText(b))], BoolSym(b), if b then 5 else 6);
    case Null =>
      WriteEnd([Comment("Print null")], "null_str", 5);
    case Array(es) =>
      EndsWithLast(Then(Ok([Comment("Print array")] + WriteCall("array_open", 1)),
                        ElementsCode(es, consts, labels, div)), WriteCall("array_close", 2));
    case Variable(name) =>
      PrintVariableEnd(name, consts);
    case Number(n) =>
      WriteEnd([Comment("Print number: " + IntToString(n))], "num" + NatToString(counter), |IntToString(n)| + 1);
    case Float(f) =>
      WriteEnd([Comment("Print float: " + f.text)], "float" + NatToString(counter), Utf8Length(f.text) + 1);
    case BinaryOp(op, l, r) =>
      PrintOperatorEnd(inner, counter, consts, labels, div);
    case _ =>
      EndsWithLast(Then(Ok([Comment("Print expression result")]), ExprCode(inner, consts, div)),
                   PrintNumberCall() + [Blank]);
  }

  /** A write call ends with a blank line. */
  lemma WriteEnd(before: seq<Line>, sym: string, len: int)
    ensures var c := before + WriteCall(sym, len); |c| > 0 && c[|c| - 1] == Blank
  {
  }

  lemma PrintVariableEnd(name: string, consts: Constants)
    requires PrintVariable(name, consts).Ok?
    ensures var c := PrintVariable(name, consts).value.code; |c| > 0 && c[|c| - 1] == Blank
  {
  }

  lemma PrintOperatorEnd(inner: Expr, counter: nat, consts: Constants, labels: Labels, div: DivLowering)
    requires inner.BinaryOp? && PrintStmt(inner, counter, consts, labels, div).Ok?
    ensures var c := PrintStmt(inner, counter, consts, labels, div).value.code; |c| > 0 && c[|c| - 1] == Blank
  {
    if inner.op == Add && (IsStringExpr(inner.left, consts) || IsStringExpr(inner.right, consts)) {
      EndsWithLast(Then(Ok(ConcatStart()), Then(ConcatCode(inner.left, consts, labels), ConcatCode(inner.right, consts, labels))),
                   ConcatFinish());
    } else if inner.op == Add {
      EndsWithLast(Then(Ok([Comment("Print numeric expression result")]), ExprCode(inner, consts, div)),
                   PrintNumberCall() + [Blank]);
    } else {
      EndsWithLast(Then(Ok([Comment("Print expression result")]), ExprCode(inner, consts, div)),
                   PrintNumberCall() + [Blank]);
    }
  }

  /** Code followed by fixed lines ends with the last of them. */
  lemma EndsWithLast(c: Code, after: seq<Line>)
    requires after != [] && Then(c, Ok(after)).Ok?
    ensures var t := Then(c, Ok(after)).value; |t| > 0 && t[|t| - 1] == after[|after| - 1]
  {
  }

  lemma {:induction false} LoopEnd(stmts: seq<Expr>, g: Gen, labels: Labels, div: DivLowering)
    requires StatementLoop(stmts, g, labels, div).Ok?
    requires g.text == [] || g.text[|g.text| - 1] != Syscall()
    ensures var t := StatementLoop(stmts, g, labels, div).value.text; t == [] || t[|t| - 1] != Syscall()
    decreases |stmts|
  {
    if stmts != [] {
      var next := Step(g, stmts[0], labels, div);
      assert next.Ok? && StatementLoop(stmts, g, labels, div) == StatementLoop(stmts[1..], next.value, labels, div);
      StepEnd(g, stmts[0], labels, div);
      LoopEnd(stmts[1..], next.value, labels, div);
    }
  }

  /** Every print of a name bound to a number appends its own `var_<name>` line, whatever the
      data section already holds: printing the name twice defines `var_<name>` twice. */
  lemma PrintNumberVariableTwice(g: Gen, name: string, labels: Labels, div: DivLowering)
    requires name in g.consts && g.consts[name].Number?
    ensures var d := Define(VarSym(name), '"', IntToString(g.consts[name].n), true);
      var r := StatementLoop([Print(Variable(name)), Print(Variable(name))], g, labels, div);
      r.Ok? && r.value.data == g.data + [d, d] && r.value.consts == g.consts
  {
    var stmts := [Print(Variable(name)), Print(Variable(name))];
    var d := Define(VarSym(name), '"', IntToString(g.consts[name].n), true);
    var g1 := Step(g, stmts[0], labels, div);
    assert g1.Ok? && g1.value.data == g.data + [d] && g1.value.consts == g.consts;
    var g2 := Step(g1.value, stmts[1], labels, div);
    assert g2.Ok? && g2.value.data == g.data + [d] + [d] && g2.value.consts == g.consts;
    assert stmts[1..][1..] == [];
    assert StatementLoop(stmts, g, labels, div) == StatementLoop(stmts[1..], g1.value, labels, div);
    assert StatementLoop(stmts[1..], g1.value, labels, div) == StatementLoop([], g2.value, labels, div);
    assert g.data + [d] + [d] == g.data + [d, d];
  }

  /** The code ends with the default `exit(0)` exactly when no top-level statement is an
      `exit`. */
  lemma DefaultExitIff(stmts: seq<Expr>, div: DivLowering)
    requires Compile(stmts, div).Ok?
    ensures var t := Compile(stmts, div).value.final.text;
      !HasExit(stmts) <==> |t| >= 4 && t[|t| - 4..] == DefaultExit()
  {
    var c := CollectAll(stmts, Collection([], 0, InitialData));
    var g0 := Gen(c.data, [], c.counter, map[]);
    var loop := StatementLoop(stmts, g0, c.labels, div).value;
    var t := Compile(stmts, div).value.final.text;
    LoopEnd(stmts, g0, c.labels, div);
    LoopExtends(stmts, g0, c.labels, div);
    if !HasExit(stmts) {
      assert t == loop.text + DefaultExit();
      assert t[|t| - 4..] == DefaultExit();
    } else {
      assert t == loop.text;
      assert DefaultExit()[3] == Syscall();
    }
  }

  // ---------------------------------------------------------------------------
  // The document

  /** As written, the document is the data section as collected, the text header, the
      code, `print_number` and the string helpers, in that order: the data block is never
      re-inserted, since the fixed buffers make it non-empty. */
  lemma GeneratedLayout(stmts: seq<Expr>)
    requires Generated(stmts).Ok?
    ensures var c := CollectAll(stmts, Collection([], 0, InitialData));
      var d := Dedup([], LiteralsAll(stmts));
      c.data == InitialData + DefsOf(d) &&
      Generated(stmts).value ==
        DataBlock(c.data) + TextHeader + RenderText(Compile(stmts, UnsignedDiv).value.final.text) +
        PrintNumberRoutine + StringHelperRoutines
  {
    CollectProgram(stmts);
    var out := Compile(stmts, UnsignedDiv).value;
    assert out.collected == CollectAll(stmts, Collection([], 0, InitialData)).data;
    AssembleKeepsCollected(out.collected, out.final.data, out.final.text);
  }

  /** A non-empty collected data section already holds `section .data`, so the final one
      is never put in front of it. */
  lemma AssembleKeepsCollected(collected: seq<DataLine>, data: seq<DataLine>, text: seq<Line>)
    requires collected != []
    ensures Assemble(collected, data, text) ==
      DataBlock(collected) + TextHeader + RenderText(text) + PrintNumberRoutine + StringHelperRoutines
  {
    var head := DataBlock(collected) + TextHeader;
    assert head[0] == "section .data";
    assert ContainsAt(head[0], "section .data", 0);
  }

  /** With the correction, the data section is the one after the statement loop, which
      extends the collected one. */
  lemma GeneratedFixedLayout(stmts: seq<Expr>)
    requires GeneratedFixed(stmts).Ok?
    ensures var out := Compile(stmts, SignedDiv).value;
      out.collected <= out.final.data &&
      GeneratedFixed(stmts).value ==
        DataBlock(out.final.data) + TextHeader + RenderText(out.final.text) + PrintNumberRoutine + StringHelperRoutines
  {
    var c := CollectAll(stmts, Collection([], 0, InitialData));
    LoopExtends(stmts, Gen(c.data, [], c.counter, map[]), c.labels, SignedDiv);
  }
}
