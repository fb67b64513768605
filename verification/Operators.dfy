/** Precedence climbing, and the printer it is the inverse of. */
module Operators {

  datatype Operator = Mul | Div | Mod | Add | Sub | LeftShift | RightShift | Ampersand | BitwiseXor | BitwiseOr
                    | LogicalAnd | LogicalOr | Greater | GreaterOrEqual | Less | LessOrEqual
                    | Compare | Equality | CaseEquality | NoEquality | Matches | NotMatches

  /** operator_precedences */
  function Precedence(op: Operator): nat {
    match op
    case Mul | Div | Mod => 8
    case Add | Sub => 7
    case LeftShift | RightShift => 6
    case Ampersand => 5
    case BitwiseXor | BitwiseOr => 4
    case Greater | GreaterOrEqual | Less | LessOrEqual => 3
    case Compare | Equality | CaseEquality | NoEquality | Matches | NotMatches => 2
    case LogicalAnd => 1
    case LogicalOr => 0
  }

  /** An operand is whatever parse_unary reads; Other is any lexeme that is neither. */
  datatype Token = OperandToken(id: nat) | OperatorToken(op: Operator) | Other

  /** Missing is what a missing operand is replaced with. */
  datatype Tree = Operand(id: nat) | Missing | Binary(op: Operator, left: Tree, right: Tree)

  /** The infix printer. */
  function Printed(t: Tree): seq<Token> {
    match t
    case Operand(id) => [OperandToken(id)]
    case Missing => []
    case Binary(op, left, right) => Printed(left) + [OperatorToken(op)] + Printed(right)
  }

  /** Left operands bind at least as tightly as their operator, right operands more tightly. */
  predicate Grouped(t: Tree) {
    match t
    case Operand(_) => true
    case Missing => true
    case Binary(op, left, right) =>
      && Grouped(left) && Grouped(right)
      && (left.Binary? ==> Precedence(left.op) >= Precedence(op))
      && (right.Binary? ==> Precedence(right.op) > Precedence(op))
  }

  predicate Complete(t: Tree) {
    match t
    case Operand(_) => true
    case Missing => false
    case Binary(_, left, right) => Complete(left) && Complete(right)
  }

  // ----- trees are what they print ----------------------------------------------------------------

  predicate OperatorsAtLeast(s: seq<Token>, p: nat) {
    forall k {:trigger s[k]} :: 0 <= k < |s| && s[k].OperatorToken? ==> Precedence(s[k].op) >= p
  }

  lemma {:induction false} TightInside(t: Tree, p: nat)
    requires Grouped(t) && (t.Binary? ==> Precedence(t.op) >= p)
    ensures OperatorsAtLeast(Printed(t), p)
  {
    if t.Binary? {
      TightInside(t.left, p);
      TightInside(t.right, p);
    }
  }

  /** The last of the operators that bind the least. */
  predicate RootAt(s: seq<Token>, i: nat) {
    && i < |s| && s[i].OperatorToken?
    && OperatorsAtLeast(s[..i], Precedence(s[i].op)) && OperatorsAtLeast(s[i + 1..], Precedence(s[i].op) + 1)
  }

  lemma RootIsLastLeast(t: Tree)
    requires Grouped(t) && t.Binary?
    ensures RootAt(Printed(t), |Printed(t.left)|) && Printed(t)[|Printed(t.left)|] == OperatorToken(t.op)
    ensures Printed(t)[..|Printed(t.left)|] == Printed(t.left)
      && Printed(t)[|Printed(t.left)| + 1..] == Printed(t.right)
  {
    TightInside(t.left, Precedence(t.op));
    TightInside(t.right, Precedence(t.op) + 1);
  }

  lemma RootAgainst(s: seq<Token>, i: nat, j: nat)
    requires RootAt(s, i) && j < |s| && s[j].OperatorToken?
    ensures if j > i then Precedence(s[j].op) > Precedence(s[i].op) else Precedence(s[j].op) >= Precedence(s[i].op)
  {
    if j < i {
      assert s[..i][j] == s[j];
    } else if j > i {
      assert s[i + 1..][j - i - 1] == s[j];
    }
  }

  lemma OneRoot(s: seq<Token>, i: nat, j: nat)
    requires RootAt(s, i) && RootAt(s, j)
    ensures i == j
  {
    RootAgainst(s, i, j);
    RootAgainst(s, j, i);
  }

  lemma {:induction false} OperatorsOnlyInBinary(t: Tree)
    requires Complete(t)
    ensures |Printed(t)| > 0 && (|Printed(t)| == 1 <==> t.Operand?)
    ensures Printed(t)[0].OperandToken? && Printed(t)[|Printed(t)| - 1].OperandToken?
    ensures forall k {:trigger Printed(t)[k]} ::
      0 <= k < |Printed(t)| && Printed(t)[k].OperatorToken? ==> k + 1 < |Printed(t)| && Printed(t)[k + 1].OperandToken?
    ensures forall k {:trigger Printed(t)[k]} ::
      0 <= k < |Printed(t)| && Printed(t)[k].OperandToken? ==> k + 1 == |Printed(t)| || Printed(t)[k + 1].OperatorToken?
    ensures forall k {:trigger Printed(t)[k]} :: 0 <= k < |Printed(t)| ==> !Printed(t)[k].Other?
  {
    if t.Binary? {
      OperatorsOnlyInBinary(t.left);
      OperatorsOnlyInBinary(t.right);
      var s, l, r := Printed(t), Printed(t.left), Printed(t.right);
      assert s[0] == l[0] && s[|s| - 1] == r[|r| - 1] && s[|l| + 1] == r[0];
      forall k {:trigger s[k]} | 0 <= k < |s|
        ensures s[k].OperatorToken? ==> k + 1 < |s| && s[k + 1].OperandToken?
        ensures s[k].OperandToken? ==> k + 1 == |s| || s[k + 1].OperatorToken?
        ensures !s[k].Other?
      {
        if k < |l| {
          assert s[k] == l[k];
          assert k + 1 < |l| ==> s[k + 1] == l[k + 1];
        } else if k > |l| {
          assert s[k] == r[k - |l| - 1];
          assert k + 1 < |s| ==> s[k + 1] == r[k - |l|];
        }
      }
    }
  }

  /** A text has at most one grouping. */
  lemma {:induction false} OneTree(a: Tree, b: Tree)
    requires Grouped(a) && Grouped(b) && Complete(a) && Complete(b) && Printed(a) == Printed(b)
    ensures a == b
  {
    OperatorsOnlyInBinary(a);
    OperatorsOnlyInBinary(b);
    if a.Binary? {
      RootIsLastLeast(a);
      RootIsLastLeast(b);
      OneRoot(Printed(a), |Printed(a.left)|, |Printed(b.left)|);
      OneTree(a.left, b.left);
      OneTree(a.right, b.right);
    }
  }

  // ----- the parser ------------------------------------------------------------------------------

  /** What has been read are operators, and operands right behind operators. */
  predicate Alternates(tokens: seq<Token>, start: nat, pos: nat) {
    start <= pos <= |tokens| &&
    forall k {:trigger tokens[k]} :: start <= k < pos ==>
      tokens[k].OperatorToken? || (tokens[k].OperandToken? && k > start && tokens[k - 1].OperatorToken?)
  }

  /** Every operator that has been read is followed by an operand. */
  predicate NoneMissing(tokens: seq<Token>, start: nat, pos: nat) {
    forall k {:trigger tokens[k]} ::
      start <= k < pos && k < |tokens| && tokens[k].OperatorToken? ==> k + 1 < |tokens| && tokens[k + 1].OperandToken?
  }

  lemma MakeBinary(op: Operator, left: Tree, right: Tree)
    ensures Printed(Binary(op, left, right)) == Printed(left) + ([OperatorToken(op)] + Printed(right))
    ensures
      Grouped(left) && Grouped(right) && (left.Binary? ==> Precedence(left.op) >= Precedence(op))
      && (right.Binary? ==> Precedence(right.op) > Precedence(op)) ==>
        Grouped(Binary(op, left, right))
    ensures Complete(left) && Complete(right) ==> Complete(Binary(op, left, right))
  {
  }

  lemma OneOperand(t: Tree)
    requires !t.Binary?
    ensures Grouped(t) && (Complete(t) <==> t.Operand?)
    ensures Printed(t) == if t.Operand? then [OperandToken(t.id)] else []
  {
  }

  lemma Longer(tokens: seq<Token>, a: nat, b: nat, c: nat, before: seq<Token>, more: seq<Token>)
    requires a <= b <= c <= |tokens| && tokens[b..c] == more
    ensures tokens[a..c] == tokens[a..b] + tokens[b..c]
    ensures before + tokens[a..c] == (before + tokens[a..b]) + more
  {
    assert tokens[a..c] == tokens[a..b] + tokens[b..c];
  }

  lemma ReadNothing(tokens: seq<Token>, pos: nat)
    requires pos <= |tokens|
    ensures Alternates(tokens, pos, pos)
  {
  }

  lemma ReadMore(tokens: seq<Token>, a: nat, b: nat, c: nat)
    requires Alternates(tokens, a, b) && Alternates(tokens, b, c)
    ensures Alternates(tokens, a, c) && (NoneMissing(tokens, a, c)
        ==> NoneMissing(tokens, a, b) && NoneMissing(tokens, b, c))
  {
  }

  /** An operator, and an operand if there is one. */
  lemma ReadOne(tokens: seq<Token>, start: nat, pos: nat)
    requires start < |tokens| && tokens[start].OperatorToken?
    requires pos == if start + 1 < |tokens| && tokens[start + 1].OperandToken? then start + 2 else start + 1
    ensures Alternates(tokens, start, pos) && (NoneMissing(tokens, start, pos) ==> pos == start + 2)
  {
    if NoneMissing(tokens, start, pos) {
      assert tokens[start].OperatorToken?;
    }
  }

  class Parser {
    const tokens: seq<Token>
    var pos: nat

    constructor (tokens: seq<Token>)
      ensures this.tokens == tokens && pos == 0
    {
      this.tokens := tokens;
      pos := 0;
    }

    function Lexeme(): Token
      reads this
    {
      if pos < |tokens| then tokens[pos] else Other
    }

    /** The next operator does not bind more tightly than the root of t. */
    predicate Closed(t: Tree)
      reads this
    {
      t.Binary? && Lexeme().OperatorToken? ==> Precedence(Lexeme().op) <= Precedence(t.op)
    }

    method ParseUnary() returns (t: Tree)
      requires pos <= |tokens|
      modifies this`pos
      ensures match old(Lexeme())
              case OperandToken(id) => t == Operand(id) && pos == old(pos) + 1 <= |tokens|
              case _ => t == Missing && pos == old(pos)
    {
      t := Missing;
      match Lexeme()
      case OperandToken(id) =>
        t := Operand(id);
        pos := pos + 1;
      case _ =>
    }

    /** parse_precedence_operator: reads operators that bind at least as tightly as asked for, and
        stops in front of the first that does not. */
    method ParsePrecedence(left: Tree, min: nat) returns (t: Tree)
      requires pos <= |tokens| && Grouped(left) && Closed(left)
      modifies this`pos
      ensures old(pos) <= pos <= |tokens| && Grouped(t) && Closed(t)
      ensures Printed(t) == Printed(left) + tokens[old(pos)..pos]
      ensures Lexeme().OperatorToken? ==> Precedence(Lexeme().op) < min
      ensures if pos == old(pos) then t == left else t.Binary? && Precedence(t.op) >= min
      ensures old(Lexeme()).OperatorToken? && Precedence(old(Lexeme()).op) >= min ==> pos > old(pos)
      ensures Alternates(tokens, old(pos), pos)
      ensures Complete(left) && NoneMissing(tokens, old(pos), pos) ==> Complete(t)
      decreases |tokens| - pos
    {
      hide Precedence, Alternates, NoneMissing, Printed, Grouped, Complete;
      t := left;
      ReadNothing(tokens, pos);
      while true
        invariant old(pos) <= pos <= |tokens| && Grouped(t) && Closed(t)
        invariant Printed(t) == Printed(left) + tokens[old(pos)..pos]
        invariant if pos == old(pos) then t == left else t.Binary? && Precedence(t.op) >= min
        invariant Alternates(tokens, old(pos), pos)
        invariant Complete(left) && NoneMissing(tokens, old(pos), pos) ==> Complete(t)
        decreases |tokens| - pos
      {
        var next := Lexeme();
        if !next.OperatorToken? || Precedence(next.op) < min {
          return;
        }
        ghost var start := pos;
        var right := ParseRight(next.op);
        ReadMore(tokens, old(pos), start, pos);
        MakeBinary(next.op, t, right);
        Longer(tokens, old(pos), start, pos, Printed(left), [OperatorToken(next.op)] + Printed(right));
        t := Binary(next.op, t, right);
      }
    }

    /** An operator and its right operand, with all that binds more tightly. */
    method ParseRight(op: Operator) returns (right: Tree)
      requires pos < |tokens| && Lexeme() == OperatorToken(op)
      modifies this`pos
      ensures old(pos) < pos <= |tokens| && Grouped(right) && (right.Binary? ==> Precedence(right.op) > Precedence(op))
      ensures tokens[old(pos)..pos] == [OperatorToken(op)] + Printed(right)
      ensures Lexeme().OperatorToken? ==> Precedence(Lexeme().op) <= Precedence(op)
      ensures Alternates(tokens, old(pos), pos)
      ensures NoneMissing(tokens, old(pos), pos) ==> Complete(right)
      decreases |tokens| - pos, 0
    {
      hide Precedence, Alternates, NoneMissing, Printed, Grouped, Complete;
      pos := pos + 1;
      right := ParseUnary();
      OneOperand(right);
      assert tokens[old(pos)..pos] == [OperatorToken(op)] + Printed(right);
      ReadOne(tokens, old(pos), pos);
      while true
        invariant old(pos) < pos <= |tokens| && Grouped(right) && Closed(right)
        invariant right.Binary? ==> Precedence(right.op) > Precedence(op)
        invariant tokens[old(pos)..pos] == [OperatorToken(op)] + Printed(right)
        invariant Alternates(tokens, old(pos), pos)
        invariant NoneMissing(tokens, old(pos), pos) ==> Complete(right)
        decreases |tokens| - pos
      {
        var next := Lexeme();
        if !next.OperatorToken? || Precedence(next.op) <= Precedence(op) {
          return;
        }
        ghost var start := pos;
        right := ParsePrecedence(right, Precedence(next.op));
        ReadMore(tokens, old(pos), start, pos);
        Longer(tokens, old(pos), start, pos, [], tokens[start..pos]);
      }
    }

    /** A whole expression. */
    method ParseExpression() returns (t: Tree)
      requires pos <= |tokens|
      modifies this`pos
      ensures old(pos) <= pos <= |tokens| && Grouped(t) && Printed(t) == tokens[old(pos)..pos]
        && !Lexeme().OperatorToken?
      ensures forall g, n: nat {:trigger Stands(tokens, old(pos), g, n)} ::
        Stands(tokens, old(pos), g, n) ==> t == g && pos == n
    {
      ghost var start := pos;
      t := ParseUnary();
      ghost var first := pos;
      t := ParsePrecedence(t, 0);
      assert tokens[start..pos] == tokens[start..first] + tokens[first..pos];
      forall g, n: nat {:trigger Stands(tokens, start, g, n)} | Stands(tokens, start, g, n)
        ensures t == g && pos == n
      {
        PrintedAt(tokens, start, n, g);
        ReadsAll(tokens, start, first, pos, t, g, n);
      }
    }
  }

  lemma PrintedAt(tokens: seq<Token>, start: nat, n: nat, t: Tree)
    requires start <= n <= |tokens| && tokens[start..n] == Printed(t) && Complete(t)
    ensures start < n && tokens[start].OperandToken? && tokens[n - 1].OperandToken?
    ensures forall k {:trigger tokens[k]} :: start <= k < n ==>
              !tokens[k].Other? && (tokens[k].OperatorToken? ==> k + 1 < n && tokens[k + 1].OperandToken?)
              && (tokens[k].OperandToken? ==> k + 1 == n || tokens[k + 1].OperatorToken?)
  {
    OperatorsOnlyInBinary(t);
    var s := Printed(t);
    forall k {:trigger tokens[k]} | start <= k < n
      ensures !tokens[k].Other? && (tokens[k].OperatorToken? ==> k + 1 < n && tokens[k + 1].OperandToken?)
      ensures tokens[k].OperandToken? ==> k + 1 == n || tokens[k + 1].OperatorToken?
    {
      assert s[k - start] == tokens[k];
      assert k + 1 < n ==> s[k + 1 - start] == tokens[k + 1];
    }
    assert s[0] == tokens[start] && s[n - 1 - start] == tokens[n - 1];
  }

  /** Neither less nor more than the text of g is read. */
  lemma ReadsAll(tokens: seq<Token>, start: nat, first: nat, pos: nat, t: Tree, g: Tree, n: nat)
    requires Stands(tokens, start, g, n) && first == start + 1 && start < |tokens| && tokens[start].OperandToken?
    requires first <= pos <= |tokens| && Grouped(t) && tokens[start..pos] == Printed(t)
    requires pos < |tokens| ==> !tokens[pos].OperatorToken?
    requires Alternates(tokens, first, pos) && (NoneMissing(tokens, first, pos) ==> Complete(t))
    ensures t == g && pos == n
  {
    PrintedAt(tokens, start, n, g);
    assert pos <= n;
    assert NoneMissing(tokens, first, pos);
    PrintedAt(tokens, start, pos, t);
    assert pos == n;
    OneTree(t, g);
  }

  /** The text of g, grouped as it is, stands at start and ends at n, with no operator behind it. */
  predicate Stands(tokens: seq<Token>, start: nat, g: Tree, n: nat) {
    && start <= n <= |tokens| && Grouped(g) && Complete(g) && tokens[start..n] == Printed(g)
    && (n < |tokens| ==> !tokens[n].OperatorToken?)
  }

  /** Printing and parsing again gives back exactly the trees whose grouping needs no parentheses. */
  method PrintAndParse(g: Tree, rest: seq<Token>) returns (t: Tree)
    requires Complete(g) && (|rest| > 0 ==> !rest[0].OperatorToken?)
    ensures t == g <==> Grouped(g)
  {
    var text := Printed(g);
    var parser := new Parser(text + rest);
    assert (text + rest)[0..|text|] == text;
    assert Grouped(g) ==> Stands(text + rest, 0, g, |text|);
    t := parser.ParseExpression();
  }

  /** Of two operators the one of the earlier class binds more tightly; equal classes group to the
      left. */
  method TwoOperators(a: nat, p: Operator, b: nat, q: Operator, c: nat) returns (t: Tree)
    ensures var classes := [{Mul, Div, Mod}, {Add, Sub}, {LeftShift, RightShift}, {Ampersand}, {BitwiseXor, BitwiseOr},
                            {Less, LessOrEqual, Greater, GreaterOrEqual},
                            {Compare, Equality, CaseEquality, NoEquality, Matches, NotMatches},
                            {LogicalAnd}, {LogicalOr}];
            forall i, j {:trigger classes[i], classes[j]} ::
              0 <= i < |classes| && 0 <= j < |classes| && p in classes[i] && q in classes[j] ==>
                t == if j < i then Binary(p, Operand(a), Binary(q, Operand(b), Operand(c)))
                     else Binary(q, Binary(p, Operand(a), Operand(b)), Operand(c))
  {
    hide Precedence, Stands;
    var parser := new Parser(TwoTokens(a, p, b, q, c));
    t := parser.ParseExpression();
    TwoStand(a, p, b, q, c);
    PrecedenceByClass(p);
    PrecedenceByClass(q);
  }

  function TwoTokens(a: nat, p: Operator, b: nat, q: Operator, c: nat): seq<Token> {
    [OperandToken(a), OperatorToken(p), OperandToken(b), OperatorToken(q), OperandToken(c)]
  }

  lemma TwoStand(a: nat, p: Operator, b: nat, q: Operator, c: nat)
    ensures if Precedence(q) > Precedence(p)
            then Stands(TwoTokens(a, p, b, q, c), 0, Binary(p, Operand(a), Binary(q, Operand(b), Operand(c))), 5)
            else Stands(TwoTokens(a, p, b, q, c), 0, Binary(q, Binary(p, Operand(a), Operand(b)), Operand(c)), 5)
  {
    hide Precedence, Printed, Grouped, Complete;
    Leaf(a);
    Leaf(b);
    Leaf(c);
    MakeBinary(q, Operand(b), Operand(c));
    MakeBinary(p, Operand(a), Operand(b));
    if Precedence(q) > Precedence(p) {
      MakeBinary(p, Operand(a), Binary(q, Operand(b), Operand(c)));
    } else {
      MakeBinary(q, Binary(p, Operand(a), Operand(b)), Operand(c));
    }
  }

  lemma Leaf(id: nat)
    ensures Printed(Operand(id)) == [OperandToken(id)] && Grouped(Operand(id)) && Complete(Operand(id))
  {
  }

  lemma PrecedenceByClass(op: Operator)
    ensures var classes := [{Mul, Div, Mod}, {Add, Sub}, {LeftShift, RightShift}, {Ampersand}, {BitwiseXor, BitwiseOr},
                            {Less, LessOrEqual, Greater, GreaterOrEqual},
                            {Compare, Equality, CaseEquality, NoEquality, Matches, NotMatches},
                            {LogicalAnd}, {LogicalOr}];
            forall i {:trigger classes[i]} :: 0 <= i < |classes| && op in classes[i] ==> Precedence(op) == 8 - i
  {
  }
}
