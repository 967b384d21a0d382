/** The Python text that prover.py:113-124 prints for a specification expression, without any
    parentheses, and when Python reads it back as the same expression. */
module PythonText {
  import opened Common
  import opened Characters
  import opened PyTeal
  import opened Decimal

  datatype Tree = Leaf(word: string) | Node(op: Op, left: Tree, right: Tree)

  function PyOp(op: Op): string
    requires !op.Unsupported?
  {
    match op
    case Eq => "=="
    case Neq => "!="
    case Ge => ">="
    case Gt => ">"
    case Le => "<="
    case Lt => "<"
    case Div => "/"
    case Mul => "*"
    case Add => "+"
    case Minus => "-"
  }

  /** None is the ValueError for an unsupported expression. */
  function PythonSrc(e: Expr): Option<string> {
    match e
    case Int(value, varName) => Some(if varName.Some? then Upper(varName.value) else Str(value))
    case BinaryExpr(op, l, r) =>
      if op.Unsupported? then None else Infix(op, PythonSrc(l), PythonSrc(r))
    case NaryExpr(op, args) =>
      if |args| == 2 && !op.Unsupported? then Infix(op, PythonSrc(args[0]), PythonSrc(args[1])) else None
    case OtherExpr => None
  }

  function Infix(op: Op, l: Option<string>, r: Option<string>): Option<string>
    requires !op.Unsupported?
  {
    if l.Some? && r.Some? then Some(l.value + " " + PyOp(op) + " " + r.value) else None
  }

  // ----- what Python reads -----

  predicate IsWord(s: string) {
    s != "" && forall i :: 0 <= i < |s| ==> s[i] != ' '
  }

  /** The words of a text, separated by spaces; `word` is the one being read. */
  function Split(s: string, word: string): seq<string> {
    if s == "" then if word == "" then [] else [word]
    else if s[0] == ' ' then (if word == "" then [] else [word]) + Split(s[1..], "")
    else Split(s[1..], word + [s[0]])
  }

  /** None: a name or a number. */
  function OpOf(word: string): (op: Option<Op>)
    ensures op.Some? ==> !op.value.Unsupported? && PyOp(op.value) == word
  {
    if word == "==" then Some(Eq)
    else if word == "!=" then Some(Neq)
    else if word == ">=" then Some(Ge)
    else if word == ">" then Some(Gt)
    else if word == "<=" then Some(Le)
    else if word == "<" then Some(Lt)
    else if word == "/" then Some(Div)
    else if word == "*" then Some(Mul)
    else if word == "+" then Some(Add)
    else if word == "-" then Some(Minus)
    else None
  }

  predicate IsOp(words: seq<string>, level: nat) {
    2 <= |words| && OpOf(words[0]).Some? && Level(OpOf(words[0]).value) == level && OpOf(words[1]).None?
  }

  /** How tightly an operator binds in Python: comparisons, then sums, then products. */
  function Level(op: Op): nat {
    match op
    case Mul => 2
    case Div => 2
    case Add => 1
    case Minus => 1
    case _ => 0
  }

  datatype Parsed = Parsed(tree: Tree, rest: seq<string>)

  /** `acc (*|/) atom (*|/) atom ...`, grouped from the left. */
  function ParseProduct(acc: Tree, words: seq<string>): (p: Parsed)
    ensures |p.rest| <= |words|
    decreases |words|
  {
    if IsOp(words, 2) then ParseProduct(Node(OpOf(words[0]).value, acc, Leaf(words[1])), words[2..])
    else Parsed(acc, words)
  }

  /** `acc (+|-) product (+|-) product ...`, grouped from the left. */
  function ParseSum(acc: Tree, words: seq<string>): (p: Parsed)
    ensures |p.rest| <= |words|
    decreases |words|
  {
    if IsOp(words, 1) then
      var right := ParseProduct(Leaf(words[1]), words[2..]);
      ParseSum(Node(OpOf(words[0]).value, acc, right.tree), right.rest)
    else Parsed(acc, words)
  }

  function ParseArithmetic(words: seq<string>): Option<Parsed> {
    if words == [] || OpOf(words[0]).Some? then None else
      var first := ParseProduct(Leaf(words[0]), words[1..]);
      Some(ParseSum(first.tree, first.rest))
  }

  /** A whole expression: arithmetic, or one comparison of two. A chain `a < b < c` is something else
      in Python, not a tree of binary operators. */
  function ParseExpr(words: seq<string>): Option<Tree> {
    match ParseArithmetic(words)
    case None => None
    case Some(Parsed(l, rest)) =>
      if rest == [] then Some(l)
      else if IsOp(rest, 0) then
        match ParseArithmetic(rest[1..])
        case None => None
        case Some(Parsed(r, rest')) => if rest' == [] then Some(Node(OpOf(rest[0]).value, l, r)) else None
      else None
  }

  function ReadPython(text: string): Option<Tree> {
    ParseExpr(Split(text, ""))
  }

  // ----- the expression as a tree -----

  function ToTree(e: Expr): Option<Tree> {
    if e.Int? then Some(Leaf(if e.varName.Some? then Upper(e.varName.value) else Str(e.value)))
    else if IsNode(e) then
      var l, r := ToTree(Left(e)), ToTree(Right(e));
      if l.Some? && r.Some? then Some(Node(e.op, l.value, r.value)) else None
    else None
  }

  function Print(t: Tree): string
    requires PlainOps(t)
  {
    match t
    case Leaf(word) => word
    case Node(op, l, r) => Print(l) + " " + PyOp(op) + " " + Print(r)
  }

  predicate PlainOps(t: Tree) {
    t.Node? ==> !t.op.Unsupported? && PlainOps(t.left) && PlainOps(t.right)
  }

  /** The leaves are words, and no word is an operator. */
  predicate PlainLeaves(t: Tree) {
    match t
    case Leaf(word) => IsWord(word) && OpOf(word).None?
    case Node(_, l, r) => PlainLeaves(l) && PlainLeaves(r)
  }

  lemma {:induction false} PythonSrcPrints(e: Expr)
    ensures PythonSrc(e).Some? <==> ToTree(e).Some?
    ensures ToTree(e).Some? ==> PlainOps(ToTree(e).value) && PythonSrc(e) == Some(Print(ToTree(e).value))
  {
    hide Upper, Str, PyOp;
    if IsNode(e) {
      PythonSrcPrints(Left(e));
      PythonSrcPrints(Right(e));
    }
  }

  function Words(t: Tree): seq<string>
    requires PlainOps(t)
  {
    match t
    case Leaf(word) => [word]
    case Node(op, l, r) => Words(l) + [PyOp(op)] + Words(r)
  }

  lemma {:induction false} SplitConcat(a: string, b: string, word: string)
    ensures Split(a + " " + b, word) == Split(a, word) + Split(b, "")
  {
    var s := a + " " + b;
    if a == "" {
      assert s[1..] == b;
    } else {
      assert s[1..] == a[1..] + " " + b;
      SplitConcat(a[1..], b, if a[0] == ' ' then "" else word + [a[0]]);
    }
  }

  lemma {:induction false} SplitWord(s: string, word: string)
    requires forall i :: 0 <= i < |s| ==> s[i] != ' '
    requires s != "" || word != ""
    ensures Split(s, word) == [word + s]
  {
    if s == "" {
      assert word + s == word;
    } else {
      assert word + s == word + [s[0]] + s[1..];
      SplitWord(s[1..], word + [s[0]]);
    }
  }

  lemma {:induction false} SplitPrint(t: Tree)
    requires PlainOps(t) && PlainLeaves(t)
    ensures Split(Print(t), "") == Words(t)
  {
    hide Split;
    match t {
      case Leaf(word) =>
        SplitWord(word, "");
        assert "" + word == word;
      case Node(op, l, r) =>
        SplitPrint(l);
        SplitPrint(r);
        SplitWord(PyOp(op), "");
        assert "" + PyOp(op) == PyOp(op);
        assert Print(t) == (Print(l) + " " + PyOp(op)) + " " + Print(r);
        SplitConcat(Print(l) + " " + PyOp(op), Print(r), "");
        SplitConcat(Print(l), PyOp(op), "");
    }
  }

  // ----- when the text means the tree -----

  function Binding(t: Tree): nat {
    if t.Leaf? then 3 else Level(t.op)
  }

  /** Every left operand binds at least as tightly as its parent, every right operand more tightly. */
  predicate LeftGrouped(t: Tree) {
    t.Node? ==>
      && Level(t.op) <= Binding(t.left) && Level(t.op) < Binding(t.right)
      && LeftGrouped(t.left) && LeftGrouped(t.right)
  }

  predicate ArithmeticTree(t: Tree) {
    t.Node? ==> 0 < Level(t.op) && ArithmeticTree(t.left) && ArithmeticTree(t.right)
  }

  predicate ComparesAtRootOnly(t: Tree) {
    t.Node? ==> ArithmeticTree(t.left) && ArithmeticTree(t.right)
  }

  lemma OpOfPyOp(op: Op)
    requires !op.Unsupported?
    ensures OpOf(PyOp(op)) == Some(op)
  {
  }

  lemma {:induction false} FirstWord(t: Tree)
    requires PlainOps(t) && PlainLeaves(t)
    ensures Words(t) != [] && OpOf(Words(t)[0]).None?
  {
    hide OpOf, PyOp;
    if t.Node? {
      FirstWord(t.left);
    }
  }

  /** Reading a product to its end is reading its first word and then the rest. */
  lemma {:induction false} ReadsProduct(t: Tree, rest: seq<string>)
    requires PlainOps(t) && PlainLeaves(t) && LeftGrouped(t) && 2 <= Binding(t)
    ensures Words(t) != []
    ensures ParseProduct(Leaf(Words(t)[0]), Words(t)[1..] + rest) == ParseProduct(t, rest)
    decreases t
  {
    hide OpOf, PyOp;
    match t {
      case Leaf(word) =>
        assert Words(t)[1..] + rest == rest;
      case Node(op, l, r) =>
        assert r.Leaf?;
        var more := [PyOp(op), r.word] + rest;
        ReadsProduct(l, more);
        OpOfPyOp(op);
        assert Words(t)[1..] + rest == Words(l)[1..] + more;
        assert more[2..] == rest;
    }
  }

  lemma ProductStops(t: Tree, rest: seq<string>)
    requires !IsOp(rest, 2)
    ensures ParseProduct(t, rest) == Parsed(t, rest)
  {
  }

  lemma SumStops(t: Tree, rest: seq<string>)
    requires !IsOp(rest, 1)
    ensures ParseSum(t, rest) == Parsed(t, rest)
  {
  }

  /** One more operand of a sum. */
  lemma SumStep(op: Op, l: Tree, r: Tree, rest: seq<string>)
    requires Level(op) == 1
    requires PlainOps(r) && PlainLeaves(r) && LeftGrouped(r) && 2 <= Binding(r)
    requires !IsOp(rest, 2)
    ensures ParseSum(l, [PyOp(op)] + (Words(r) + rest)) == ParseSum(Node(op, l, r), rest)
  {
    hide OpOf, PyOp, ParseProduct, Words;
    var words := [PyOp(op)] + (Words(r) + rest);
    OpOfPyOp(op);
    FirstWord(r);
    ReadsProduct(r, rest);
    ProductStops(r, rest);
    assert words[1] == Words(r)[0] && words[2..] == Words(r)[1..] + rest;
  }

  /** The same for a sum, when no product operator follows. */
  lemma {:induction false} ReadsSum(t: Tree, rest: seq<string>)
    requires PlainOps(t) && PlainLeaves(t) && LeftGrouped(t) && 1 <= Binding(t)
    requires !IsOp(rest, 2)
    ensures Words(t) != []
    ensures var first := ParseProduct(Leaf(Words(t)[0]), Words(t)[1..] + rest);
      ParseSum(first.tree, first.rest) == ParseSum(t, rest)
    decreases t
  {
    hide OpOf, PyOp, ParseProduct, ParseSum, PlainLeaves;
    if 2 <= Binding(t) {
      ReadsProduct(t, rest);
      ProductStops(t, rest);
    } else {
      var op, l, r := t.op, t.left, t.right;
      assert PlainLeaves(l) && PlainLeaves(r) by { PlainParts(t); }
      var more := [PyOp(op)] + (Words(r) + rest);
      NoProductNext(op, Words(r) + rest);
      ReadsSum(l, more);
      SumStep(op, l, r, rest);
      assert Words(t)[1..] + rest == Words(l)[1..] + more;
    }
  }

  lemma PlainParts(t: Tree)
    requires PlainLeaves(t) && t.Node?
    ensures PlainLeaves(t.left) && PlainLeaves(t.right)
  {
  }

  lemma NoProductNext(op: Op, words: seq<string>)
    requires !op.Unsupported? && Level(op) < 2
    ensures !IsOp([PyOp(op)] + words, 2)
    ensures Level(op) == 0 ==> !IsOp([PyOp(op)] + words, 1)
  {
  }

  lemma ReadsArithmetic(t: Tree, rest: seq<string>)
    requires PlainOps(t) && PlainLeaves(t) && LeftGrouped(t) && 1 <= Binding(t)
    requires !IsOp(rest, 2) && !IsOp(rest, 1)
    ensures ParseArithmetic(Words(t) + rest) == Some(Parsed(t, rest))
  {
    hide OpOf, PyOp, ParseProduct, ParseSum, Words, IsOp;
    FirstWord(t);
    ReadsSum(t, rest);
    SumStops(t, rest);
    assert (Words(t) + rest)[1..] == Words(t)[1..] + rest;
  }

  /** Products that are read are grouped from the left, and so are sums. */
  lemma {:induction false} ProductRead(acc: Tree, words: seq<string>)
    requires LeftGrouped(acc) && ArithmeticTree(acc) && 2 <= Binding(acc)
    ensures var t := ParseProduct(acc, words).tree;
      LeftGrouped(t) && ArithmeticTree(t) && 2 <= Binding(t)
    decreases |words|
  {
    hide OpOf;
    if IsOp(words, 2) {
      ProductRead(Node(OpOf(words[0]).value, acc, Leaf(words[1])), words[2..]);
    }
  }

  lemma {:induction false} SumRead(acc: Tree, words: seq<string>)
    requires LeftGrouped(acc) && ArithmeticTree(acc) && 1 <= Binding(acc)
    ensures var t := ParseSum(acc, words).tree;
      LeftGrouped(t) && ArithmeticTree(t) && 1 <= Binding(t)
    decreases |words|
  {
    hide OpOf;
    if IsOp(words, 1) {
      ProductRead(Leaf(words[1]), words[2..]);
      var right := ParseProduct(Leaf(words[1]), words[2..]);
      SumRead(Node(OpOf(words[0]).value, acc, right.tree), right.rest);
    }
  }

  lemma ArithmeticRead(words: seq<string>)
    requires ParseArithmetic(words).Some?
    ensures var t := ParseArithmetic(words).value.tree;
      LeftGrouped(t) && ArithmeticTree(t) && 1 <= Binding(t)
  {
    hide OpOf;
    ProductRead(Leaf(words[0]), words[1..]);
    var first := ParseProduct(Leaf(words[0]), words[1..]);
    SumRead(first.tree, first.rest);
  }

  lemma ArithmeticBinds(t: Tree)
    requires ArithmeticTree(t)
    ensures 1 <= Binding(t)
  {
  }

  /** Whatever Python reads as a tree is grouped from the left and compares at the root only. */
  lemma OnlyLeftGroupedRead(words: seq<string>)
    requires ParseExpr(words).Some?
    ensures LeftGrouped(ParseExpr(words).value) && ComparesAtRootOnly(ParseExpr(words).value)
  {
    hide OpOf, ParseArithmetic;
    ArithmeticRead(words);
    var rest := ParseArithmetic(words).value.rest;
    if rest != [] {
      ArithmeticRead(rest[1..]);
    }
  }

  /** The printed text, which has no parentheses, is read back as the same tree exactly when every
      left operand binds at least as tightly as its parent, every right operand binds more tightly,
      and there is no comparison below the root. */
  lemma ReadBack(t: Tree)
    requires PlainOps(t) && PlainLeaves(t)
    ensures ReadPython(Print(t)) == Some(t) <==> LeftGrouped(t) && ComparesAtRootOnly(t)
  {
    hide OpOf, PyOp, Split, Print, ParseArithmetic, LeftGrouped;
    SplitPrint(t);
    if LeftGrouped(t) && ComparesAtRootOnly(t) {
      GroupedIsRead(t);
    }
    if ParseExpr(Words(t)) == Some(t) {
      OnlyLeftGroupedRead(Words(t));
    }
  }

  lemma GroupedIsRead(t: Tree)
    requires PlainOps(t) && PlainLeaves(t)
    requires LeftGrouped(t) && ComparesAtRootOnly(t)
    ensures ParseExpr(Words(t)) == Some(t)
  {
    hide OpOf, PyOp, ParseArithmetic;
    if 1 <= Binding(t) {
      ReadsArithmetic(t, []);
      assert Words(t) + [] == Words(t);
    } else {
      var op, l, r := t.op, t.left, t.right;
      var rest := [PyOp(op)] + Words(r);
      assert Words(t) == Words(l) + rest;
      OpOfPyOp(op);
      FirstWord(r);
      hide Words;
      ArithmeticBinds(l);
      ArithmeticBinds(r);
      ReadsArithmetic(l, rest);
      ReadsArithmetic(r, []);
      NoProductNext(op, Words(r));
      assert rest[1..] == Words(r) == Words(r) + [];
    }
  }

  // ----- the leaves of real specifications -----

  /** A name in ASCII. No keyword of Python is all in upper case, as the printed names are. */
  predicate IsIdentifier(s: string) {
    s != "" && !('0' <= s[0] <= '9') && forall i :: 0 <= i < |s| ==>
      'a' <= s[i] <= 'z' || 'A' <= s[i] <= 'Z' || '0' <= s[i] <= '9' || s[i] == '_'
  }

  /** Printing a supported expression over identifiers, and reading it back. */
  lemma PythonSrcReadBack(e: Expr)
    requires Supported(e)
    requires forall n :: n in Names(e) ==> IsIdentifier(n)
    ensures PythonSrc(e).Some? && ToTree(e).Some?
    ensures ReadPython(PythonSrc(e).value) == ToTree(e)
       <==> LeftGrouped(ToTree(e).value) && ComparesAtRootOnly(ToTree(e).value)
  {
    hide ReadPython, PythonSrc, ToTree, Names, Print, LeftGrouped, ComparesAtRootOnly;
    PlainTree(e);
    PythonSrcPrints(e);
    ReadBack(ToTree(e).value);
  }

  lemma {:induction false} PlainTree(e: Expr)
    requires Supported(e)
    requires forall n :: n in Names(e) ==> IsIdentifier(n)
    ensures ToTree(e).Some? && PlainLeaves(ToTree(e).value)
  {
    hide Str, Upper, OpOf, IsIdentifier;
    if IsNode(e) {
      NamesOfOperands(e);
      PlainTree(Left(e));
      PlainTree(Right(e));
    } else if e.varName.Some? {
      PlainName(e.varName.value);
    } else {
      PlainNumber(Str(e.value));
    }
  }

  lemma PlainName(s: string)
    requires IsIdentifier(s)
    ensures IsWord(Upper(s)) && OpOf(Upper(s)).None?
  {
    var u := Upper(s);
    assert 'A' <= u[0] <= 'Z' || '0' <= u[0] <= '9' || u[0] == '_';
  }

  lemma PlainNumber(s: string)
    requires s != "" && forall i :: 0 <= i < |s| ==> '0' <= s[i] <= '9'
    ensures IsWord(s) && OpOf(s).None?
  {
    assert '0' <= s[0] <= '9';
  }

  // ----- the operators -----

  /** How each PyTeal operator is printed between two literals. */
  lemma OperatorTexts(x: nat, y: nat, k: nat)
    requires k < 10
    ensures PythonSrc(BinaryExpr(AN_OPERATOR[k], Int(x, None), Int(y, None)))
         == Some(Str(x) + " " + ["==", "!=", ">=", ">", "<=", "<", "/", "*", "+", "-"][k] + " " + Str(y))
  {
  }

  /** A text of three names and two operators. */
  function Infix3(a: string, op1: Op, b: string, op2: Op, c: string): string
    requires !op1.Unsupported? && !op2.Unsupported?
  {
    a + " " + PyOp(op1) + " " + b + " " + PyOp(op2) + " " + c
  }

  lemma TwoLeaves(a: string, op: Op, b: string)
    requires !op.Unsupported?
    ensures var t := Node(op, Leaf(a), Leaf(b));
      && PlainOps(t) && Print(t) == a + " " + PyOp(op) + " " + b
      && LeftGrouped(t) && (0 < Level(op) ==> ArithmeticTree(t))
  {
    assert Print(Leaf(a)) == a && Print(Leaf(b)) == b;
    assert LeftGrouped(Leaf(a)) && LeftGrouped(Leaf(b));
    assert ArithmeticTree(Leaf(a)) && ArithmeticTree(Leaf(b));
  }

  lemma BothPrint(a: string, op1: Op, b: string, op2: Op, c: string)
    requires !op1.Unsupported? && !op2.Unsupported?
    ensures var left := Node(op2, Node(op1, Leaf(a), Leaf(b)), Leaf(c));
      var right := Node(op1, Leaf(a), Node(op2, Leaf(b), Leaf(c)));
      && PlainOps(left) && Print(left) == Infix3(a, op1, b, op2, c)
      && PlainOps(right) && Print(right) == Infix3(a, op1, b, op2, c)
  {
    hide PyOp;
    TwoLeaves(a, op1, b);
    TwoLeaves(b, op2, c);
    assert Print(Leaf(a)) == a && Print(Leaf(c)) == c;
    assert a + " " + PyOp(op1) + " " + (b + " " + PyOp(op2) + " " + c) == Infix3(a, op1, b, op2, c);
  }

  /** Products before sums before comparisons, and otherwise the left operand first. */
  lemma PythonPrecedence(a: string, op1: Op, b: string, op2: Op, c: string)
    requires PlainLeaves(Leaf(a)) && PlainLeaves(Leaf(b)) && PlainLeaves(Leaf(c))
    requires !op1.Unsupported? && !op2.Unsupported?
    ensures op1 in {Mul, Div} || (op1 in {Add, Minus} && op2 !in {Mul, Div}) ==>
      ReadPython(Infix3(a, op1, b, op2, c)) == Some(Node(op2, Node(op1, Leaf(a), Leaf(b)), Leaf(c)))
    ensures op2 in {Mul, Div, Add, Minus} && op1 !in {Mul, Div} && !(op1 in {Add, Minus} && op2 in {Add, Minus}) ==>
      ReadPython(Infix3(a, op1, b, op2, c)) == Some(Node(op1, Leaf(a), Node(op2, Leaf(b), Leaf(c))))
  {
    hide ReadPython, OpOf, PyOp, Print, Infix3;
    BothPrint(a, op1, b, op2, c);
    var first, second := Node(op1, Leaf(a), Leaf(b)), Node(op2, Leaf(b), Leaf(c));
    TwoLeaves(a, op1, b);
    TwoLeaves(b, op2, c);
    ReadBack(Node(op2, first, Leaf(c)));
    ReadBack(Node(op1, Leaf(a), second));
  }
}
