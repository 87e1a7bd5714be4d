/** Template expressions: their values, their grammar with its meaning, and the reading of a text. */
module TemplateSpec {
  import opened CheckedInt

  datatype Error = Overflow | NeedsInteger | DivisionByZero | Trailing | Incomplete | MissingParen | BadCharacter |
    LiteralOverflow | MissingParam(name: string) | Unclosed | Empty

  datatype Result<+T> = Ok(value: T) | Err(error: Error)

  type Params = map<string, string>

  // ---- Numbers as text ----

  predicate IsDigit(c: char) {
    '0' <= c <= '9'
  }

  predicate IsSpace(c: char) {
    c == ' ' || '\t' <= c <= '\r'
  }

  predicate IsAlpha(c: char) {
    'a' <= c <= 'z' || 'A' <= c <= 'Z'
  }

  predicate StartsName(c: char) {
    IsAlpha(c) || c == '_'
  }

  predicate InName(c: char) {
    IsAlpha(c) || IsDigit(c) || c == '_' || c == '.'
  }

  predicate AllDigits(s: string) {
    forall k :: 0 <= k < |s| ==> IsDigit(s[k])
  }

  function DigitOf(d: nat): char
    requires d < 10
  {
    '0' + d as char
  }

  function DigitValue(c: char): nat
    requires IsDigit(c)
  {
    (c - '0') as nat
  }

  function NatText(n: nat): string {
    if n < 10 then [DigitOf(n)] else NatText(n / 10) + [DigitOf(n % 10)]
  }

  function IntText(i: int): string {
    if i < 0 then "-" + NatText(-i) else NatText(i)
  }

  function DigitsValue(s: string): nat
    requires AllDigits(s)
  {
    if s == "" then 0 else DigitsValue(s[..|s| - 1]) * 10 + DigitValue(s[|s| - 1])
  }

  /** A whole text as a decimal integer in 64 bits, if it is one: an optional minus and at least one digit. */
  function ParseInt(s: string): Result<int64> {
    var neg := s != "" && s[0] == '-';
    var digits := if neg then s[1..] else s;
    if digits == "" || !AllDigits(digits) then Err(NeedsInteger)
    else
      var v := if neg then -(DigitsValue(digits) as int) else DigitsValue(digits) as int;
      if Fits(v) then Ok(v as int64) else Err(LiteralOverflow)
  }

  lemma {:induction false} NatTextValue(n: nat)
    ensures NatText(n) != "" && AllDigits(NatText(n)) && DigitsValue(NatText(n)) == n
  {
    if n < 10 {
      assert NatText(n)[..0] == "";
    } else {
      NatTextValue(n / 10);
      var s := NatText(n);
      assert s[..|s| - 1] == NatText(n / 10);
    }
  }

  /** Writing a 64-bit integer and reading it back gives the same integer. */
  lemma IntTextParses(v: int64)
    ensures ParseInt(IntText(v as int)) == Ok(v)
  {
    var i := v as int;
    var n: int := if i < 0 then -i else i;
    NatTextValue(n);
    hide NatText, DigitsValue;
    if i < 0 {
      assert IntText(i)[1..] == NatText(n);
    } else {
      assert IsDigit(IntText(i)[0]);
    }
  }

  // ---- Values ----

  /** A value: perhaps an integer, perhaps with the text it came from. */
  datatype Value = Value(isInt: bool, hasText: bool, i: int64, s: string)
  {
    function Text(): string {
      if hasText then s else IntText(i as int)
    }
  }

  function IntValue(i: int64): Value {
    Value(true, false, i, "")
  }

  function Literal(digits: string): Result<Value>
    requires AllDigits(digits)
  {
    if Fits(DigitsValue(digits)) then Ok(Value(true, true, DigitsValue(digits) as int64, digits)) else Err(LiteralOverflow)
  }

  function Lookup(params: Params, name: string): Result<Value> {
    if name !in params then Err(MissingParam(name))
    else
      match ParseInt(params[name])
      case Ok(v) => Ok(Value(true, true, v, params[name]))
      case Err(_) => Ok(Value(false, true, 0, params[name]))
  }

  function ApplySign(neg: bool, v: Value): Result<Value> {
    if !v.isInt then Err(NeedsInteger)
    else if !neg then Ok(v)
    else if v.i as int == MIN64 then Err(Overflow)
    else Ok(IntValue(-v.i))
  }

  function Checked(i: int): Result<Value> {
    if Fits(i) then Ok(IntValue(i as int64)) else Err(Overflow)
  }

  predicate IsSumOp(c: char) {
    c == '+' || c == '-'
  }

  predicate IsProductOp(c: char) {
    c == '*' || c == '/'
  }

  /** One operator. Addition of texts joins them; everything else needs integers and stays within 64 bits. */
  function Apply(op: char, a: Value, b: Value): Result<Value>
    requires IsSumOp(op) || IsProductOp(op)
  {
    if a.isInt && b.isInt then
      if op == '+' then Checked(a.i as int + b.i as int)
      else if op == '-' then Checked(a.i as int - b.i as int)
      else if op == '*' then Checked(a.i as int * b.i as int)
      else if b.i == 0 then Err(DivisionByZero)
      else Checked(TruncDiv(a.i as int, b.i as int))
    else if op == '+' then Ok(Value(false, true, a.i, a.Text() + b.Text()))
    else Err(NeedsInteger)
  }

  // ---- The grammar and its meaning ----

  /** A sentence of the grammar, with its white space. */
  datatype Tree =
    | Lit(ws: string, digits: string)
    | Name(ws: string, name: string)
    | Paren(ws: string, inner: Tree, close: string)
    | Sign(ws: string, neg: bool, operand: Tree)
    | Bin(left: Tree, ws: string, op: char, right: Tree)

  predicate Spaces(s: string) {
    forall k :: 0 <= k < |s| ==> IsSpace(s[k])
  }

  predicate IsName(s: string) {
    s != "" && StartsName(s[0]) && forall k :: 0 <= k < |s| ==> InName(s[k])
  }

  predicate IsFactor(t: Tree) {
    !t.Bin?
  }

  predicate IsProduct(t: Tree) {
    t.Bin? ==> IsProductOp(t.op)
  }

  /** Products bind tighter than sums, signs tighter than products, and both operators associate to the left. */
  predicate WellFormed(t: Tree) {
    match t
    case Lit(ws, digits) => Spaces(ws) && digits != "" && AllDigits(digits)
    case Name(ws, name) => Spaces(ws) && IsName(name)
    case Paren(ws, inner, close) => Spaces(ws) && Spaces(close) && WellFormed(inner)
    case Sign(ws, _, operand) => Spaces(ws) && IsFactor(operand) && WellFormed(operand)
    case Bin(left, ws, op, right) =>
      && Spaces(ws) && WellFormed(left) && WellFormed(right)
      && ((IsSumOp(op) && IsProduct(right)) || (IsProductOp(op) && IsProduct(left) && IsFactor(right)))
  }

  function TextOf(t: Tree): string {
    match t
    case Lit(ws, digits) => ws + digits
    case Name(ws, name) => ws + name
    case Paren(ws, inner, close) => ws + "(" + TextOf(inner) + close + ")"
    case Sign(ws, neg, operand) => ws + (if neg then "-" else "+") + TextOf(operand)
    case Bin(left, ws, op, right) => TextOf(left) + ws + [op] + TextOf(right)
  }

  function Meaning(t: Tree, params: Params): Result<Value>
    requires WellFormed(t)
  {
    match t
    case Lit(_, digits) => Literal(digits)
    case Name(_, name) => Lookup(params, name)
    case Paren(_, inner, _) => Meaning(inner, params)
    case Sign(_, neg, operand) =>
      (match Meaning(operand, params)
       case Err(e) => Err(e)
       case Ok(v) => ApplySign(neg, v))
    case Bin(left, _, op, right) =>
      (match Meaning(left, params)
       case Err(e) => Err(e)
       case Ok(a) =>
         match Meaning(right, params)
         case Err(e) => Err(e)
         case Ok(b) => Apply(op, a, b))
  }

  // ---- Reading a text ----

  datatype Parsed = Good(v: Value, pos: nat) | Bad(e: Error)

  function Skip(s: string, p: nat): (q: nat)
    requires p <= |s|
    ensures p <= q <= |s| && Spaces(s[p..q]) && (q < |s| ==> !IsSpace(s[q]))
    decreases |s| - p
  {
    if p < |s| && IsSpace(s[p]) then
      var q := Skip(s, p + 1);
      assert s[p..q] == [s[p]] + s[p + 1..q];
      q
    else p
  }

  function DigitsEnd(s: string, p: nat): (q: nat)
    requires p <= |s|
    ensures p <= q <= |s| && AllDigits(s[p..q]) && (q < |s| ==> !IsDigit(s[q]))
    decreases |s| - p
  {
    if p < |s| && IsDigit(s[p]) then
      var q := DigitsEnd(s, p + 1);
      assert s[p..q] == [s[p]] + s[p + 1..q];
      q
    else p
  }

  function NameEnd(s: string, p: nat): (q: nat)
    requires p <= |s|
    ensures p <= q <= |s| && (forall k :: p <= k < q ==> InName(s[k])) && (q < |s| ==> !InName(s[q]))
    decreases |s| - p
  {
    if p < |s| && InName(s[p]) then NameEnd(s, p + 1) else p
  }

  function At(r: Result<Value>, pos: nat): Parsed {
    match r
    case Ok(v) => Good(v, pos)
    case Err(e) => Bad(e)
  }

  function Sum(s: string, p: nat, params: Params): (r: Parsed)
    requires p <= |s|
    ensures r.Good? ==> p < r.pos <= |s|
    decreases |s| - p, 4
  {
    match Product(s, p, params)
    case Bad(e) => Bad(e)
    case Good(v, q) => SumTail(s, v, q, params)
  }

  function SumTail(s: string, v: Value, p: nat, params: Params): (r: Parsed)
    requires p <= |s|
    ensures r.Good? ==> p <= r.pos <= |s|
    decreases |s| - p, 5
  {
    var q := Skip(s, p);
    if q < |s| && IsSumOp(s[q]) then
      match Product(s, q + 1, params)
      case Bad(e) => Bad(e)
      case Good(b, q1) =>
        match Apply(s[q], v, b)
        case Err(e) => Bad(e)
        case Ok(w) => SumTail(s, w, q1, params)
    else Good(v, q)
  }

  function Product(s: string, p: nat, params: Params): (r: Parsed)
    requires p <= |s|
    ensures r.Good? ==> p < r.pos <= |s|
    decreases |s| - p, 3
  {
    match Factor(s, p, params)
    case Bad(e) => Bad(e)
    case Good(v, q) => ProductTail(s, v, q, params)
  }

  function ProductTail(s: string, v: Value, p: nat, params: Params): (r: Parsed)
    requires p <= |s|
    ensures r.Good? ==> p <= r.pos <= |s|
    decreases |s| - p, 5
  {
    var q := Skip(s, p);
    if q < |s| && IsProductOp(s[q]) then
      match Factor(s, q + 1, params)
      case Bad(e) => Bad(e)
      case Good(b, q1) =>
        match Apply(s[q], v, b)
        case Err(e) => Bad(e)
        case Ok(w) => ProductTail(s, w, q1, params)
    else Good(v, q)
  }

  function Factor(s: string, p: nat, params: Params): (r: Parsed)
    requires p <= |s|
    ensures r.Good? ==> p < r.pos <= |s|
    decreases |s| - p, 2
  {
    var q := Skip(s, p);
    if q < |s| && IsSumOp(s[q]) then
      match Factor(s, q + 1, params)
      case Bad(e) => Bad(e)
      case Good(v, q1) => At(ApplySign(s[q] == '-', v), q1)
    else Primary(s, q, params)
  }

  function Primary(s: string, p: nat, params: Params): (r: Parsed)
    requires p <= |s|
    ensures r.Good? ==> p < r.pos <= |s|
    decreases |s| - p, 1
  {
    var q := Skip(s, p);
    if q == |s| then Bad(Incomplete)
    else if s[q] == '(' then
      match Sum(s, q + 1, params)
      case Bad(e) => Bad(e)
      case Good(v, q1) =>
        var q2 := Skip(s, q1);
        if q2 < |s| && s[q2] == ')' then Good(v, q2 + 1) else Bad(MissingParen)
    else if IsDigit(s[q]) then At(Literal(s[q..DigitsEnd(s, q)]), DigitsEnd(s, q))
    else if StartsName(s[q]) then At(Lookup(params, s[q..NameEnd(s, q)]), NameEnd(s, q))
    else Bad(BadCharacter)
  }

  /** The value of a whole expression. */
  function Eval(s: string, params: Params): Result<Value> {
    match Sum(s, 0, params)
    case Bad(e) => Err(e)
    case Good(v, p) => if Skip(s, p) == |s| then Ok(v) else Err(Trailing)
  }

  // ---- Templates ----

  /** The first place where a hole opens, or the end. */
  function FindOpen(s: string, p: nat): (q: nat)
    requires p <= |s|
    ensures p <= q <= |s| && (q < |s| ==> OpensAt(s, q)) && forall k :: p <= k < q ==> !OpensAt(s, k)
    decreases |s| - p
  {
    if p == |s| || OpensAt(s, p) then p else FindOpen(s, p + 1)
  }

  predicate OpensAt(s: string, k: nat) {
    k + 1 < |s| && s[k] == '$' && s[k + 1] == '{'
  }

  /** The first closing brace, or the end. */
  function FindClose(s: string, p: nat): (q: nat)
    requires p <= |s|
    ensures p <= q <= |s| && (q < |s| ==> s[q] == '}') && forall k :: p <= k < q ==> s[k] != '}'
    decreases |s| - p
  {
    if p == |s| || s[p] == '}' then p else FindClose(s, p + 1)
  }

  /** Without the white space at both ends. */
  function Trim(s: string): string {
    if s != "" && IsSpace(s[0]) then Trim(s[1..])
    else if s != "" && IsSpace(s[|s| - 1]) then Trim(s[..|s| - 1])
    else s
  }

  /** A hole that is a parameter name as a whole gives the parameter as it is; any other is an expression. */
  function Hole(inner: string, params: Params): Result<string> {
    if inner == "" then Err(Empty)
    else if inner in params then Ok(params[inner])
    else
      match Eval(inner, params)
      case Err(e) => Err(e)
      case Ok(v) => Ok(v.Text())
  }

  function Prepend(s: string, r: Result<string>): Result<string> {
    match r
    case Err(e) => Err(e)
    case Ok(t) => Ok(s + t)
  }

  function Resolve(text: string, params: Params): Result<string>
    decreases |text|
  {
    var start := FindOpen(text, 0);
    if start == |text| then Ok(text)
    else
      var end := FindClose(text, start + 2);
      if end == |text| then Err(Unclosed)
      else
        match Hole(Trim(text[start + 2..end]), params)
        case Err(e) => Err(e)
        case Ok(v) => Prepend(text[..start] + v, Resolve(text[end + 1..], params))
  }
}
