/** What template expressions come to: exact integer arithmetic and the texts joined from left to right. */
module TemplateValues {
  import opened CheckedInt
  import opened TemplateSpec
  import opened TemplateGrammar

  // ---- Integers as texts ----

  /** A whole text that is an integer: perhaps a minus, then digits. */
  ghost predicate IsIntegerText(s: string, i: int) {
    exists digits :: digits != "" && AllDigits(digits) &&
      ((s == digits && i == DigitsValue(digits)) || (s == "-" + digits && i == -(DigitsValue(digits) as int)))
  }

  lemma ParseIntIs(s: string, i: int64)
    ensures ParseInt(s) == Ok(i) <==> IsIntegerText(s, i as int)
  {
    if ParseInt(s) == Ok(i) {
      var digits := if s[0] == '-' then s[1..] else s;
      assert s == digits || s == "-" + digits;
    }
    if IsIntegerText(s, i as int) {
      var digits :| digits != "" && AllDigits(digits) &&
        ((s == digits && i as int == DigitsValue(digits)) || (s == "-" + digits && i as int == -(DigitsValue(digits) as int)));
      assert IsDigit(digits[0]);
      if s != digits {
        assert s[1..] == digits;
      }
    }
  }

  /** Digits are those of decimal notation, and one more digit to the right is worth a tenth of the one before. */
  lemma DigitsAreDecimal(n: nat, d: nat, s: string)
    requires d < 10 && AllDigits(s)
    ensures DigitOf(d) == "0123456789"[d] && DigitValue("0123456789"[d]) == d
    ensures NatText(d) == ["0123456789"[d]] && (n > 0 ==> NatText(10 * n + d) == NatText(n) + ["0123456789"[d]])
    ensures DigitsValue("") == 0 && DigitsValue(s + ["0123456789"[d]]) == 10 * DigitsValue(s) + d
  {
    assert (s + ["0123456789"[d]])[..|s|] == s;
    assert (10 * n + d) / 10 == n && (10 * n + d) % 10 == d;
  }

  lemma {:induction false} NoLeadingZero(n: nat)
    ensures n > 0 ==> NatText(n)[0] != '0'
    ensures NatText(0) == "0"
  {
    if n >= 10 {
      NoLeadingZero(n / 10);
    }
  }

  /** The text of an integer has a minus exactly when it is negative, and no leading zero. */
  lemma IntTextIsPlain(i: int)
    ensures var s := IntText(i);
      && s != "" && (s[0] == '-' <==> i < 0)
      && (var digits := if i < 0 then s[1..] else s; AllDigits(digits) && digits != "" && (i != 0 ==> digits[0] != '0'))
  {
    var n := if i < 0 then -i else i;
    NoLeadingZero(n);
    NatTextValue(n);
    hide NatText;
    if i < 0 {
      assert IntText(i)[1..] == NatText(n);
    } else {
      assert IsDigit(NatText(n)[0]);
    }
  }

  // ---- Exact values ----

  /** A result: the integer, if it is one, and the text. */
  datatype Exact = Whole(i: int, text: string) | Words(text: string)

  function InRange(i: int): Result<Exact> {
    if -0x8000_0000_0000_0000 <= i <= 0x7FFF_FFFF_FFFF_FFFF then Ok(Whole(i, IntText(i))) else Err(Overflow)
  }

  function Magnitude(x: int): nat {
    if x < 0 then -x else x
  }

  /** The quotient rounded towards zero. */
  function Quotient(x: int, y: int): int
    requires y != 0
  {
    if (x < 0) == (y < 0) then Magnitude(x) / Magnitude(y) else -(Magnitude(x) / Magnitude(y))
  }

  /** One operator on two results: integers are computed exactly and must stay within 64 bits; a sum with a text joins the
      two texts, left before right. */
  function Operate(op: char, a: Exact, b: Exact): Result<Exact> {
    if a.Words? || b.Words? then (if op == '+' then Ok(Words(a.text + b.text)) else Err(NeedsInteger))
    else
      match op
      case '+' => InRange(a.i + b.i)
      case '-' => InRange(a.i - b.i)
      case '*' => InRange(a.i * b.i)
      case _ => if b.i == 0 then Err(DivisionByZero) else InRange(Quotient(a.i, b.i))
  }

  /** The value of an expression, or its first error from the left. A literal and a parameter keep the text they have. */
  ghost function ExactValue(e: Expr, params: Params): Result<Exact>
    requires Proper(e)
  {
    match e
    case Number(digits) =>
      if DigitsValue(digits) <= 0x7FFF_FFFF_FFFF_FFFF then Ok(Whole(DigitsValue(digits), digits)) else Err(LiteralOverflow)
    case Parameter(name) =>
      if name !in params then Err(MissingParam(name)) else Ok(OfText(params[name]))
    case Unary(neg, operand) =>
      (match ExactValue(operand, params)
       case Err(x) => Err(x)
       case Ok(v) => if v.Words? then Err(NeedsInteger) else if neg then InRange(-v.i) else Ok(v))
    case Binary(left, op, right) =>
      (match ExactValue(left, params)
       case Err(x) => Err(x)
       case Ok(a) =>
         match ExactValue(right, params)
         case Err(x) => Err(x)
         case Ok(b) => Operate(op, a, b))
  }

  /** A parameter's value: an integer of 64 bits if its whole text is one. */
  ghost function OfText(s: string): Exact {
    if exists i :: IsNumber(s, i) then
      var i :| IsNumber(s, i); Whole(i, s)
    else Words(s)
  }

  ghost predicate IsNumber(s: string, i: int) {
    IsIntegerText(s, i) && -0x8000_0000_0000_0000 <= i <= 0x7FFF_FFFF_FFFF_FFFF
  }

  ghost function Then(r: Result<Exact>, before: string, after: string): Result<string> {
    if r.Err? then Err(r.error) else Ok(before + r.value.text + after)
  }

  ghost function Seen(r: Result<Value>): Result<Exact> {
    match r
    case Err(x) => Err(x)
    case Ok(v) => Ok(if v.isInt then Whole(v.i as int, v.Text()) else Words(v.Text()))
  }

  lemma QuotientIsTruncated(x: int, y: int)
    requires y != 0
    ensures TruncDiv(x, y) == Quotient(x, y)
  {
  }

  ghost function Shown(v: Value): Exact {
    if v.isInt then Whole(v.i as int, v.Text()) else Words(v.Text())
  }

  lemma CheckedIsExact(i: int)
    ensures Seen(Checked(i)) == InRange(i)
  {
    hide IntText;
  }

  lemma ApplyIsExact(op: char, a: Value, b: Value)
    requires IsSumOp(op) || IsProductOp(op)
    ensures Seen(Apply(op, a, b)) == Operate(op, Shown(a), Shown(b))
  {
    hide IntText, TruncDiv, Quotient, InRange, Checked, Seen;
    if a.isInt && b.isInt {
      var x, y := a.i as int, b.i as int;
      if op == '+' { CheckedIsExact(x + y); }
      else if op == '-' { CheckedIsExact(x - y); }
      else if op == '*' { CheckedIsExact(x * y); }
      else if y != 0 {
        QuotientIsTruncated(x, y);
        CheckedIsExact(TruncDiv(x, y));
      } else {
        ErrorSeen(DivisionByZero);
      }
    } else if op == '+' {
      JoinedSeen(a.i, a.Text() + b.Text());
    } else {
      ErrorSeen(NeedsInteger);
    }
  }

  lemma ErrorSeen(x: Error)
    ensures Seen(Err(x)) == Err(x)
  {
  }

  lemma JoinedSeen(i: int64, s: string)
    ensures Seen(Ok(Value(false, true, i, s))) == Ok(Words(s))
  {
  }

  lemma SignIsExact(neg: bool, v: Value)
    ensures Seen(ApplySign(neg, v)) ==
      if !v.isInt then Err(NeedsInteger) else if neg then InRange(-(v.i as int)) else Ok(Shown(v))
  {
    hide IntText;
  }

  lemma LookupIsExact(params: Params, name: string)
    requires name in params
    ensures Seen(Lookup(params, name)) == Ok(OfText(params[name]))
  {
    var s := params[name];
    if i :| IsNumber(s, i) {
      ParseIntIs(s, i as int64);
    }
    if ParseInt(s).Ok? {
      ParseIntIs(s, ParseInt(s).value);
      assert IsNumber(s, ParseInt(s).value as int);
    }
    forall i | IsNumber(s, i) ensures ParseInt(s) == Ok(i as int64) {
      ParseIntIs(s, i as int64);
    }
    hide ParseInt, IsIntegerText;
  }

  /** Main result: every expression evaluates to its exact value and text, or to its first error. */
  lemma {:induction false} DenotesExactly(e: Expr, params: Params)
    requires Proper(e)
    ensures Seen(Denote(e, params)) == ExactValue(e, params)
  {
    hide Apply, Operate, ApplySign, InRange, Lookup, OfText, IntText, DigitsValue;
    match e
    case Number(digits) =>
    case Parameter(name) =>
      if name in params {
        LookupIsExact(params, name);
      } else {
        MissingSeen(params, name);
      }
    case Unary(neg, operand) =>
      DenotesExactly(operand, params);
      if Denote(operand, params).Ok? {
        SignIsExact(neg, Denote(operand, params).value);
      }
    case Binary(left, op, right) =>
      DenotesExactly(left, params);
      DenotesExactly(right, params);
      if Denote(left, params).Ok? && Denote(right, params).Ok? {
        ApplyIsExact(op, Denote(left, params).value, Denote(right, params).value);
      }
  }

  lemma MissingSeen(params: Params, name: string)
    requires name !in params
    ensures Lookup(params, name) == Err(MissingParam(name))
  {
  }

  /** Main result: an expression printed into a template is replaced by its exact text, or the template fails with its
      first error. */
  lemma HoleIsExact(e: Expr, before: string, after: string, params: Params)
    requires Proper(e) && (e.Parameter? || TextOf(Print(e, 0)) !in params)
    requires (forall k :: 0 <= k < |before| ==> !OpensAt(before, k)) && (forall k :: 0 <= k < |after| ==> !OpensAt(after, k))
    ensures Resolve(before + "${" + TextOf(Print(e, 0)) + "}" + after, params) == Then(ExactValue(e, params), before, after)
  {
    hide Resolve, TextOf, Print, Denote, ExactValue;
    PrintedExpressionResolves(e, before, after, params);
    DenotesExactly(e, params);
  }

  lemma PairText(p: string, op: char, q: string)
    requires IsName(p) && IsName(q) && (IsSumOp(op) || IsProductOp(op))
    ensures var e := Binary(Parameter(p), op, Parameter(q)); Proper(e) && TextOf(Print(e, 0)) == p + [op] + q
  {
    assert ("" + p) + "" + [op] + ("" + q) == p + [op] + q;
  }

  lemma PairValue(p: string, op: char, q: string, params: Params)
    requires IsName(p) && IsName(q) && (IsSumOp(op) || IsProductOp(op)) && p in params && q in params
    ensures var e := Binary(Parameter(p), op, Parameter(q));
      Proper(e) && ExactValue(e, params) == Operate(op, OfText(params[p]), OfText(params[q]))
  {
    hide Operate, OfText;
  }

  lemma LoneHole(e: Expr, text: string, params: Params)
    requires Proper(e) && text == TextOf(Print(e, 0)) && text !in params
    ensures Resolve("${" + text + "}", params) == Then(ExactValue(e, params), "", "")
  {
    hide Resolve, TextOf, Print, ExactValue;
    HoleIsExact(e, "", "", params);
    assert "" + "${" + text + "}" + "" == "${" + text + "}";
  }

  lemma HoleText(p: string, op: char, q: string)
    ensures "${" + (p + [op] + q) + "}" == "${" + p + [op] + q + "}"
  {
  }

  /** Two parameters with an operator between them. */
  lemma PairResolves(p: string, op: char, q: string, params: Params)
    requires IsName(p) && IsName(q) && (IsSumOp(op) || IsProductOp(op)) && p in params && q in params && p + [op] + q !in params
    ensures Resolve("${" + p + [op] + q + "}", params) ==
      Then(Operate(op, OfText(params[p]), OfText(params[q])), "", "")
  {
    var e := Binary(Parameter(p), op, Parameter(q));
    PairText(p, op, q);
    PairValue(p, op, q, params);
    HoleText(p, op, q);
    hide *;
    LoneHole(e, p + [op] + q, params);
  }

  /** Main result: a sum of two parameters of which one is no integer gives the first text followed by the second. */
  lemma TextsJoinInOrder(p: string, q: string, params: Params)
    requires IsName(p) && IsName(q) && p in params && q in params && p + "+" + q !in params
    requires !(exists i :: IsNumber(params[p], i)) || !(exists i :: IsNumber(params[q], i))
    ensures Resolve("${" + p + "+" + q + "}", params) == Ok(params[p] + params[q])
  {
    hide Resolve;
    assert p + ['+'] + q == p + "+" + q;
    assert "${" + p + ['+'] + q + "}" == "${" + p + "+" + q + "}";
    PairResolves(p, '+', q, params);
    assert "" + (params[p] + params[q]) + "" == params[p] + params[q];
  }
}
