/**
  The nested token model of src/tokens.rs: the `Token`, `Function`,
  `BinaryOp`, `UnaryOp`, `Value` and `Glyph` sum types, their `Display`
  renderings, the precedence table, the `Into` conversions, and the
  `ExpressionBuilder` that appends one token per call.

  An `f32` scalar is held as a `real`; nothing here computes with it, and its
  decimal rendering (Rust's float formatting) is a parameter `showScalar`.
*/
module Tokens {

  import opened Wrappers

  datatype BinaryOp = Add | Sub | Mul | Div | Pow

  datatype UnaryOp = Neg

  datatype Function =
    | BinaryOp(bop: BinaryOp)
    | UnaryOp(uop: UnaryOp)
    | NamedFunc(name: string)

  datatype Value = Scalar(x: real) | Var(name: string)

  datatype Glyph = LBracket | RBracket | Comma

  datatype Token =
    | Start
    | End
    | Func(f: Function)
    | Val(v: Value)
    | Glyph(g: Glyph)

  // ---------------------------------------------------------------------------
  // Precedence (Function::presedence)
  // ---------------------------------------------------------------------------

  /** Binding strength of an operator: higher binds tighter. */
  function Precedence(f: Function): (p: int)
    ensures 0 <= p <= 3
    ensures p == 3 <==> f.NamedFunc?
  {
    match f
    case BinaryOp(op) =>
      (match op
       case Add => 0
       case Sub => 0
       case Mul => 1
       case Div => 1
       case Pow => 2)
    case UnaryOp(Neg) => 1
    case NamedFunc(_) => 3
  }

  /** The table itself, level by level. */
  lemma PrecedenceTable(name: string)
    ensures Precedence(BinaryOp(Add)) == Precedence(BinaryOp(Sub)) == 0
    ensures Precedence(BinaryOp(Mul)) == Precedence(BinaryOp(Div)) == Precedence(UnaryOp(Neg)) == 1
    ensures Precedence(BinaryOp(Pow)) == 2
    ensures Precedence(NamedFunc(name)) == 3
  {
  }

  /** A named function binds tighter than every other operator, and the
      ordinary operators are ordered Add/Sub < Mul/Div/Neg < Pow. */
  lemma NamedFuncBindsTightest(f: Function, name: string)
    requires !f.NamedFunc?
    ensures Precedence(f) < Precedence(NamedFunc(name))
    ensures f.BinaryOp? && f.bop == Pow ==> forall g: Function :: !g.NamedFunc? ==> Precedence(g) <= Precedence(f)
  {
  }

  // ---------------------------------------------------------------------------
  // Into conversions
  // ---------------------------------------------------------------------------

  function FunctionIntoToken(f: Function): Token { Func(f) }

  function BinaryOpIntoFunction(op: BinaryOp): Function { BinaryOp(op) }

  function BinaryOpIntoToken(op: BinaryOp): Token { Func(BinaryOp(op)) }

  function UnaryOpIntoFunction(op: UnaryOp): Function { UnaryOp(op) }

  function UnaryOpIntoToken(op: UnaryOp): Token { Func(UnaryOp(op)) }

  function ValueIntoToken(v: Value): Token { Val(v) }

  function GlyphIntoToken(g: Glyph): Token { Glyph(g) }

  /** Converting an operator straight to a token is the same as going through
      `Function`, and no two operators convert to the same token. A value and
      a glyph each become the token that wraps it, so distinct values (and
      distinct glyphs) give distinct tokens, and neither collides with an
      operator. */
  lemma ConversionsCommute(a: BinaryOp, b: BinaryOp, u: UnaryOp, v: Value, w: Value, g: Glyph, h: Glyph)
    ensures BinaryOpIntoToken(a) == FunctionIntoToken(BinaryOpIntoFunction(a))
    ensures UnaryOpIntoToken(u) == FunctionIntoToken(UnaryOpIntoFunction(u))
    ensures BinaryOpIntoToken(a) == BinaryOpIntoToken(b) ==> a == b
    ensures BinaryOpIntoToken(a) != UnaryOpIntoToken(u)
    ensures ValueIntoToken(v).Val? && ValueIntoToken(v).v == v
    ensures ValueIntoToken(v) == ValueIntoToken(w) ==> v == w
    ensures GlyphIntoToken(g).Glyph? && GlyphIntoToken(g).g == g
    ensures GlyphIntoToken(g) == GlyphIntoToken(h) ==> g == h
    ensures ValueIntoToken(v) != GlyphIntoToken(g)
    ensures ValueIntoToken(v) != BinaryOpIntoToken(a) && GlyphIntoToken(g) != BinaryOpIntoToken(a)
  {
  }

  // ---------------------------------------------------------------------------
  // Display
  // ---------------------------------------------------------------------------

  function ShowBinaryOp(op: BinaryOp): string {
    match op
    case Add => "Add"
    case Sub => "Sub"
    case Mul => "Mul"
    case Div => "Div"
    case Pow => "Pow"
  }

  function ShowUnaryOp(op: UnaryOp): string {
    match op
    case Neg => "Neg"
  }

  function ShowFunction(f: Function): string {
    match f
    case BinaryOp(op) => ShowBinaryOp(op)
    case UnaryOp(op) => ShowUnaryOp(op)
    case NamedFunc(name) => "NamedFunc(" + name + ")"
  }

  function ShowValue(v: Value, showScalar: real -> string): string {
    match v
    case Scalar(x) => "Const(" + showScalar(x) + ")"
    case Var(name) => "Var(" + name + ")"
  }

  function ShowGlyph(g: Glyph): string {
    match g
    case LBracket => "LBracket"
    case RBracket => "RBracket"
    case Comma => "Comma"
  }

  function ShowToken(t: Token, showScalar: real -> string): string {
    match t
    case Start => "Start"
    case End => "End"
    case Func(f) => ShowFunction(f)
    case Val(v) => ShowValue(v, showScalar)
    case Glyph(g) => ShowGlyph(g)
  }

  predicate IsNumeric(t: Token) {
    t.Val? && t.v.Scalar?
  }

  /** Reads a rendering back; the inverse of `ShowToken` on every token that
      is not a scalar. */
  function ReadShown(s: string): (r: Option<Token>)
    ensures r.Some? ==> !IsNumeric(r.value)
  {
    if s == "Start" then Some(Start)
    else if s == "End" then Some(End)
    else if s == "Add" then Some(Func(BinaryOp(Add)))
    else if s == "Sub" then Some(Func(BinaryOp(Sub)))
    else if s == "Mul" then Some(Func(BinaryOp(Mul)))
    else if s == "Div" then Some(Func(BinaryOp(Div)))
    else if s == "Pow" then Some(Func(BinaryOp(Pow)))
    else if s == "Neg" then Some(Func(UnaryOp(Neg)))
    else if s == "LBracket" then Some(Glyph(LBracket))
    else if s == "RBracket" then Some(Glyph(RBracket))
    else if s == "Comma" then Some(Glyph(Comma))
    else if |s| >= 11 && s[..10] == "NamedFunc(" && s[|s| - 1] == ')' then Some(Func(NamedFunc(s[10..|s| - 1])))
    else if |s| >= 5 && s[..4] == "Var(" && s[|s| - 1] == ')' then Some(Val(Var(s[4..|s| - 1])))
    else None
  }

  /** Every non-numeric token renders as fixed text that identifies it: the
      rendering does not depend on the float formatter and reads back to the
      token. */
  lemma {:induction false} ShowTokenReadsBack(t: Token, showScalar: real -> string, other: real -> string)
    requires !IsNumeric(t)
    ensures ShowToken(t, showScalar) == ShowToken(t, other)
    ensures ReadShown(ShowToken(t, showScalar)) == Some(t)
  {
    var s := ShowToken(t, showScalar);
    match t
    case Func(NamedFunc(name)) =>
      assert s[..10] == "NamedFunc(";
      assert s[10..|s| - 1] == name;
    case Val(Var(name)) =>
      assert s[..4] == "Var(";
      assert s[0] == 'V';
      assert s[4..|s| - 1] == name;
    case Start =>
    case End =>
    case Func(BinaryOp(op)) =>
    case Func(UnaryOp(Neg)) =>
      assert s == "Neg";
    case Glyph(g) =>
  }

  /** Two non-numeric tokens with the same rendering are the same token. */
  lemma ShowTokenInjective(t: Token, u: Token, showScalar: real -> string)
    requires !IsNumeric(t) && !IsNumeric(u)
    requires ShowToken(t, showScalar) == ShowToken(u, showScalar)
    ensures t == u
  {
    ShowTokenReadsBack(t, showScalar, showScalar);
    ShowTokenReadsBack(u, showScalar, showScalar);
  }

  /** The rendering of each token of `ts`, in order. */
  function Texts(ts: seq<Token>, showScalar: real -> string): (r: seq<string>)
    ensures |r| == |ts|
    ensures forall i :: 0 <= i < |ts| ==> r[i] == ShowToken(ts[i], showScalar)
  {
    seq(|ts|, i requires 0 <= i < |ts| => ShowToken(ts[i], showScalar))
  }

  /** Rendering one more token appends its text. */
  lemma TextsAppend(ts: seq<Token>, t: Token, showScalar: real -> string)
    ensures Texts(ts + [t], showScalar) == Texts(ts, showScalar) + [ShowToken(t, showScalar)]
  {
    var r, parts := Texts(ts + [t], showScalar), Texts(ts, showScalar);
    forall i | 0 <= i < |r|
      ensures r[i] == (parts + [ShowToken(t, showScalar)])[i]
    {
      if i < |ts| {
        assert (ts + [t])[i] == ts[i];
      }
    }
  }

  /** The strings `parts`, each followed by a comma. */
  function Terminated(parts: seq<string>): string {
    if parts == [] then ""
    else Terminated(parts[..|parts| - 1]) + parts[|parts| - 1] + ","
  }

  /** The strings `parts`, separated by commas. */
  function Joined(parts: seq<string>): string {
    if |parts| == 0 then ""
    else if |parts| == 1 then parts[0]
    else parts[0] + "," + Joined(parts[1..])
  }

  /** What `ExpressionBuilder`'s Display writes: "[", the tokens joined by ",", "]". */
  function Rendered(ts: seq<Token>, showScalar: real -> string): string {
    "[" + Joined(Texts(ts, showScalar)) + "]"
  }

  /** Writing every part with a trailing comma is the comma-separated text
      followed by one comma. */
  lemma {:induction false} TerminatedIsJoinedComma(parts: seq<string>)
    requires |parts| > 0
    ensures Terminated(parts) == Joined(parts) + ","
  {
    var init, last := parts[..|parts| - 1], parts[|parts| - 1];
    assert Terminated(parts) == Terminated(init) + last + ",";
    if |parts| == 1 {
      assert init == [];
      assert Joined(parts) == last;
    } else {
      TerminatedIsJoinedComma(init);
      JoinedSnoc(init, last);
      assert init + [last] == parts;
      assert Joined(parts) == Joined(init) + "," + last;
    }
  }

  /** Writing every part but the last with a trailing comma and then the last
      one bare is the comma-separated text. */
  lemma {:induction false} TerminatedThenLastIsJoined(parts: seq<string>)
    requires |parts| > 0
    ensures Terminated(parts[..|parts| - 1]) + parts[|parts| - 1] == Joined(parts)
  {
    var init, last := parts[..|parts| - 1], parts[|parts| - 1];
    if |parts| == 1 {
      assert init == [];
      assert Terminated(init) == "";
      assert Joined(parts) == last;
      assert "" + last == last;
    } else {
      TerminatedIsJoinedComma(init);
      JoinedSnoc(init, last);
      assert init + [last] == parts;
      assert Joined(parts) == Joined(init) + "," + last;
      assert Terminated(init) + last == Joined(init) + "," + last;
    }
  }

  /** One more part extends the terminated text by that part and ",". */
  lemma TerminatedStep(parts: seq<string>, i: nat)
    requires i < |parts|
    ensures Terminated(parts[..i + 1]) == Terminated(parts[..i]) + parts[i] + ","
  {
    assert parts[..i + 1][..i] == parts[..i];
  }

  /** Appending a part extends the comma-separated text by "," and that part. */
  lemma {:induction false} JoinedSnoc(parts: seq<string>, t: string)
    requires |parts| > 0
    ensures Joined(parts + [t]) == Joined(parts) + "," + t
  {
    var head := parts[0];
    assert (parts + [t])[0] == head;
    assert (parts + [t])[1..] == parts[1..] + [t];
    if |parts| == 1 {
      assert parts[1..] + [t] == [t];
      assert Joined(parts + [t]) == head + "," + t;
    } else {
      JoinedSnoc(parts[1..], t);
      var rest := Joined(parts[1..]);
      calc {
        Joined(parts + [t]);
        head + "," + Joined(parts[1..] + [t]);
        head + "," + (rest + "," + t);
        (head + "," + rest) + "," + t;
        Joined(parts) + "," + t;
      }
    }
  }

  /** What the display of a builder shows after one more append. */
  lemma {:induction false} RenderedAfterAppend(ts: seq<Token>, t: Token, showScalar: real -> string)
    ensures Rendered(ts + [t], showScalar)
         == if ts == [] then "[" + ShowToken(t, showScalar) + "]"
            else "[" + Joined(Texts(ts, showScalar)) + "," + ShowToken(t, showScalar) + "]"
  {
    var tText := ShowToken(t, showScalar);
    var parts := Texts(ts, showScalar);
    TextsAppend(ts, t, showScalar);
    if ts == [] {
      assert parts + [tText] == [tText];
      assert Joined([tText]) == tText;
    } else {
      JoinedSnoc(parts, tText);
      assert Rendered(ts + [t], showScalar) == "[" + (Joined(parts) + "," + tText) + "]";
    }
  }

  // ---------------------------------------------------------------------------
  // ExpressionBuilder
  // ---------------------------------------------------------------------------

  /** Accumulates a token sequence one call at a time. The Rust methods take
      the builder by value and hand it back; here the same object is updated
      in place, which is what the move-in/move-out amounts to. */
  class ExpressionBuilder {
    var vec: seq<Token>

    constructor (vec: seq<Token>)
      ensures this.vec == vec
    {
      this.vec := vec;
    }

    method Start()
      modifies this
      ensures vec == old(vec) + [Token.Start]
    {
      vec := vec + [Token.Start];
    }

    method End()
      modifies this
      ensures vec == old(vec) + [Token.End]
    {
      vec := vec + [Token.End];
    }

    method Binop(op: BinaryOp)
      modifies this
      ensures vec == old(vec) + [Token.Func(BinaryOp(op))]
    {
      vec := vec + [Token.Func(BinaryOp(op))];
    }

    method Add()
      modifies this
      ensures vec == old(vec) + [Token.Func(BinaryOp(BinaryOp.Add))]
    {
      vec := vec + [Token.Func(BinaryOp(BinaryOp.Add))];
    }

    method Sub()
      modifies this
      ensures vec == old(vec) + [Token.Func(BinaryOp(BinaryOp.Sub))]
    {
      vec := vec + [Token.Func(BinaryOp(BinaryOp.Sub))];
    }

    method Mul()
      modifies this
      ensures vec == old(vec) + [Token.Func(BinaryOp(BinaryOp.Mul))]
    {
      vec := vec + [Token.Func(BinaryOp(BinaryOp.Mul))];
    }

    method Div()
      modifies this
      ensures vec == old(vec) + [Token.Func(BinaryOp(BinaryOp.Div))]
    {
      vec := vec + [Token.Func(BinaryOp(BinaryOp.Div))];
    }

    method Pow()
      modifies this
      ensures vec == old(vec) + [Token.Func(BinaryOp(BinaryOp.Pow))]
    {
      vec := vec + [Token.Func(BinaryOp(BinaryOp.Pow))];
    }

    method Neg()
      modifies this
      ensures vec == old(vec) + [Token.Func(UnaryOp(UnaryOp.Neg))]
    {
      vec := vec + [Token.Func(UnaryOp(UnaryOp.Neg))];
    }

    method Func(name: string)
      modifies this
      ensures vec == old(vec) + [Token.Func(NamedFunc(name))]
    {
      vec := vec + [Token.Func(NamedFunc(name))];
    }

    /** `sclar` in the source. */
    method Scalar(x: real)
      modifies this
      ensures vec == old(vec) + [Val(Value.Scalar(x))]
    {
      vec := vec + [Val(Value.Scalar(x))];
    }

    method Var(name: string)
      modifies this
      ensures vec == old(vec) + [Val(Value.Var(name))]
    {
      vec := vec + [Val(Value.Var(name))];
    }

    method LBracket()
      modifies this
      ensures vec == old(vec) + [Glyph(Glyph.LBracket)]
    {
      vec := vec + [Glyph(Glyph.LBracket)];
    }

    method RBracket()
      modifies this
      ensures vec == old(vec) + [Glyph(Glyph.RBracket)]
    {
      vec := vec + [Glyph(Glyph.RBracket)];
    }

    method Comma()
      modifies this
      ensures vec == old(vec) + [Glyph(Glyph.Comma)]
    {
      vec := vec + [Glyph(Glyph.Comma)];
    }

    /** The `Display` impl. Rust computes `len - 1` on a `usize`, which panics
        on an empty builder, hence the precondition. */
    method Display(showScalar: real -> string) returns (s: string)
      requires |vec| > 0
      ensures s == Rendered(vec, showScalar)
    {
      var ts := vec;
      ghost var parts := Texts(ts, showScalar);
      // the tokens before the last, each written with a trailing comma
      var body := "";
      var len := |ts|;
      for i := 0 to len - 1
        invariant body == Terminated(parts[..i])
      {
        TerminatedStep(parts, i);
        body := body + ShowToken(ts[i], showScalar) + ",";
      }
      // then the last token, which exists because `ts` is not empty
      var last := ShowToken(ts[len - 1], showScalar);
      TerminatedThenLastIsJoined(parts);
      s := "[" + body + last + "]";
    }
  }

  /** Each arithmetic shortcut (`add`, `sub`, `mul`, `div`, `pow`) leaves a
      builder exactly as `binop` with the matching operator does. */
  method ShortcutMatchesBinop(v: seq<Token>, op: BinaryOp) returns (viaShortcut: seq<Token>, viaBinop: seq<Token>)
    ensures viaShortcut == viaBinop == v + [BinaryOpIntoToken(op)]
  {
    var a := new ExpressionBuilder(v);
    match op {
      case Add => a.Add();
      case Sub => a.Sub();
      case Mul => a.Mul();
      case Div => a.Div();
      case Pow => a.Pow();
    }
    var b := new ExpressionBuilder(v);
    b.Binop(op);
    viaShortcut, viaBinop := a.vec, b.vec;
  }
}
