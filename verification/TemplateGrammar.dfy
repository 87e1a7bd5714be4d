/** Reading a text agrees with the grammar: every sentence gets its meaning, and nothing else is accepted. */
module TemplateGrammar {
  import opened CheckedInt
  import opened TemplateSpec

  // ---- Every sentence gets its meaning ----

  /** t is at position p of s and ends at q, where no name or number could continue. */
  ghost predicate Stands(t: Tree, s: string, p: nat, q: nat) {
    p <= q <= |s| && s[p..q] == TextOf(t) && (q < |s| ==> !InName(s[q]))
  }

  /** After white space no product operator follows. */
  ghost predicate NoProductNext(s: string, p: nat)
    requires p <= |s|
  {
    var q := Skip(s, p); q < |s| ==> !IsProductOp(s[q])
  }

  /** Skipping stops at the first character that is not a space. */
  lemma {:induction false} SkipTo(s: string, p: nat, q: nat)
    requires p <= q <= |s| && Spaces(s[p..q]) && (q < |s| ==> !IsSpace(s[q]))
    ensures Skip(s, p) == q
    decreases q - p
  {
    if p < q {
      assert IsSpace(s[p..q][0]);
      assert s[p + 1..q] == s[p..q][1..];
      SkipTo(s, p + 1, q);
    }
  }

  lemma {:induction false} DigitsTo(s: string, p: nat, q: nat)
    requires p <= q <= |s| && AllDigits(s[p..q]) && (q < |s| ==> !IsDigit(s[q]))
    ensures DigitsEnd(s, p) == q
    decreases q - p
  {
    if p < q {
      assert IsDigit(s[p..q][0]);
      assert s[p + 1..q] == s[p..q][1..];
      DigitsTo(s, p + 1, q);
    }
  }

  lemma {:induction false} NameTo(s: string, p: nat, q: nat)
    requires p <= q <= |s| && (forall k :: p <= k < q ==> InName(s[k])) && (q < |s| ==> !InName(s[q]))
    ensures NameEnd(s, p) == q
    decreases q - p
  {
    if p < q {
      NameTo(s, p + 1, q);
    }
  }

  /** White space, then a character, then the rest: where each of them is. */
  lemma Split3(s: string, p: nat, q: nat, a: string, c: char, b: string)
    requires p <= q <= |s| && s[p..q] == a + [c] + b
    ensures p + |a| + 1 + |b| == q
    ensures s[p..p + |a|] == a && s[p + |a|] == c && s[p + |a| + 1..q] == b
  {
    var t := s[p..q];
    assert t[..|a|] == a && t[|a|] == c && t[|a| + 1..] == b;
  }

  lemma LitReads(t: Tree, s: string, p: nat, q: nat, params: Params)
    requires WellFormed(t) && t.Lit? && Stands(t, s, p, q)
    ensures Factor(s, p, params) == At(Meaning(t, params), q)
  {
    var k := p + |t.ws|;
    assert s[p..q][..|t.ws|] == t.ws && s[p..q][|t.ws|..] == t.digits;
    assert s[p..k] == t.ws && s[k..q] == t.digits && s[k] == t.digits[0];
    SkipTo(s, p, k);
    SkipTo(s, k, k) by { assert s[k..k] == ""; }
    DigitsTo(s, k, q);
  }

  lemma NameReads(t: Tree, s: string, p: nat, q: nat, params: Params)
    requires WellFormed(t) && t.Name? && Stands(t, s, p, q)
    ensures Factor(s, p, params) == At(Meaning(t, params), q)
  {
    var k := p + |t.ws|;
    assert s[p..q][..|t.ws|] == t.ws && s[p..q][|t.ws|..] == t.name;
    assert s[p..k] == t.ws && s[k..q] == t.name && s[k] == t.name[0];
    forall i | k <= i < q ensures InName(s[i]) {
      assert s[i] == s[k..q][i - k];
    }
    SkipTo(s, p, k);
    SkipTo(s, k, k) by { assert s[k..k] == ""; }
    NameTo(s, k, q);
  }

  /** What comes of continuing after a meaning. */
  ghost function ThenSum(s: string, r: Result<Value>, q: nat, params: Params): Parsed
    requires q <= |s|
  {
    match r
    case Err(e) => Bad(e)
    case Ok(v) => SumTail(s, v, q, params)
  }

  ghost function ThenProduct(s: string, r: Result<Value>, q: nat, params: Params): Parsed
    requires q <= |s|
  {
    match r
    case Err(e) => Bad(e)
    case Ok(v) => ProductTail(s, v, q, params)
  }

  lemma FactorAtSign(s: string, p: nat, q: nat, params: Params)
    requires p <= |s| && Skip(s, p) == q < |s| && IsSumOp(s[q])
    ensures Factor(s, p, params) ==
      match Factor(s, q + 1, params) case Bad(e) => Bad(e) case Good(v, r) => At(ApplySign(s[q] == '-', v), r)
  {
    hide Sum, SumTail, Product, ProductTail, Primary, Skip, ApplySign;
  }

  lemma FactorAtParen(s: string, p: nat, q: nat, params: Params)
    requires p <= |s| && Skip(s, p) == q < |s| && s[q] == '('
    ensures Factor(s, p, params) ==
      match Sum(s, q + 1, params)
      case Bad(e) => Bad(e)
      case Good(v, q1) =>
        if Skip(s, q1) < |s| && s[Skip(s, q1)] == ')' then Good(v, Skip(s, q1) + 1) else Bad(MissingParen)
  {
    SkipTwice(s, p);
    hide Sum, SumTail, Product, ProductTail, Skip, ApplySign;
  }

  lemma {:induction false} FactorReads(t: Tree, s: string, p: nat, q: nat, params: Params)
    requires WellFormed(t) && IsFactor(t) && Stands(t, s, p, q)
    ensures Factor(s, p, params) == At(Meaning(t, params), q)
    decreases t, 1
  {
    match t
    case Lit(_, _) => LitReads(t, s, p, q, params);
    case Name(_, _) => NameReads(t, s, p, q, params);
    case Paren(_, _, _) => ParenReads(t, s, p, q, params);
    case Sign(_, _, _) => SignReads(t, s, p, q, params);
  }

  lemma {:induction false} SignReads(t: Tree, s: string, p: nat, q: nat, params: Params)
    requires WellFormed(t) && t.Sign? && Stands(t, s, p, q)
    ensures Factor(s, p, params) == At(Meaning(t, params), q)
    decreases t, 0
  {
    hide Factor, Skip, ApplySign;
    var k := p + |t.ws|;
    Split3(s, p, q, t.ws, if t.neg then '-' else '+', TextOf(t.operand));
    SkipTo(s, p, k);
    FactorReads(t.operand, s, k + 1, q, params);
    FactorAtSign(s, p, k, params);
  }

  /** Where the parts of a parenthesis are. */
  lemma ParenAt(t: Tree, s: string, p: nat, q: nat) returns (k: nat, m: nat)
    requires WellFormed(t) && t.Paren? && Stands(t, s, p, q)
    ensures p <= k < m < q && s[p..k] == t.ws && s[k] == '(' && s[q - 1] == ')'
    ensures Stands(t.inner, s, k + 1, m) && s[m..q - 1] == t.close
  {
    var inner := TextOf(t.inner);
    var body := inner + t.close;
    assert s[p..q] == t.ws + ['('] + (body + ")");
    Split3(s, p, q, t.ws, '(', body + ")");
    k := p + |t.ws|;
    assert body + ")" == body + [')'] + "";
    Split3(s, k + 1, q, body, ')', "");
    m := k + 1 + |inner|;
    Split2(s, k + 1, q - 1, inner, t.close);
    if m < q - 1 { assert s[m] == t.close[0]; }
  }

  lemma Split2(s: string, p: nat, q: nat, a: string, b: string)
    requires p <= q <= |s| && s[p..q] == a + b
    ensures p + |a| + |b| == q && s[p..p + |a|] == a && s[p + |a|..q] == b
  {
    var t := s[p..q];
    assert t[..|a|] == a && t[|a|..] == b;
  }

  lemma {:induction false} ParenReads(t: Tree, s: string, p: nat, q: nat, params: Params)
    requires WellFormed(t) && t.Paren? && Stands(t, s, p, q)
    ensures Factor(s, p, params) == At(Meaning(t, params), q)
    decreases t, 0
  {
    hide Factor, Sum, Skip, Stands, TextOf;
    var k, m := ParenAt(t, s, p, q);
    assert Stands(t, s, p, q) ==> q <= |s| by { StandsIn(t, s, p, q); }
    SkipTo(s, p, k);
    SkipTo(s, m, q - 1);
    assert s[q - 1..q - 1] == "";
    SkipTo(s, q - 1, q - 1);
    FactorAtParen(s, p, k, params);
    SumReads(t.inner, s, k + 1, m, params);
    SumTailStops(s, m, q - 1, params);
  }

  lemma StandsIn(t: Tree, s: string, p: nat, q: nat)
    requires Stands(t, s, p, q)
    ensures p <= q <= |s|
  {
  }

  lemma SumTailStops(s: string, p: nat, q: nat, params: Params)
    requires p <= |s| && Skip(s, p) == q && (q < |s| ==> !IsSumOp(s[q]))
    ensures forall v :: SumTail(s, v, p, params) == Good(v, q)
  {
    hide Sum, Product, ProductTail, Factor, Primary, Skip, Apply;
  }

  lemma ProductTailStops(s: string, p: nat, params: Params)
    requires p <= |s| && NoProductNext(s, p)
    ensures forall v :: ProductTail(s, v, p, params) == Good(v, Skip(s, p))
  {
    hide Sum, SumTail, Product, Factor, Primary, Skip, Apply;
  }

  lemma ProductTailAt(s: string, v: Value, p: nat, q: nat, params: Params)
    requires p <= |s| && Skip(s, p) == q < |s| && IsProductOp(s[q])
    ensures ProductTail(s, v, p, params) ==
      match Factor(s, q + 1, params)
      case Bad(e) => Bad(e)
      case Good(b, r) => ThenProduct(s, Apply(s[q], v, b), r, params)
  {
    hide Sum, SumTail, Product, Factor, Primary, Skip, Apply;
  }

  lemma SumTailAt(s: string, v: Value, p: nat, q: nat, params: Params)
    requires p <= |s| && Skip(s, p) == q < |s| && IsSumOp(s[q])
    ensures SumTail(s, v, p, params) ==
      match Product(s, q + 1, params)
      case Bad(e) => Bad(e)
      case Good(b, r) => ThenSum(s, Apply(s[q], v, b), r, params)
  {
    hide Sum, ProductTail, Product, Factor, Primary, Skip, Apply;
  }

  lemma {:induction false} ProductReads(t: Tree, s: string, p: nat, q: nat, params: Params)
    requires WellFormed(t) && IsProduct(t) && Stands(t, s, p, q)
    ensures Product(s, p, params) == ThenProduct(s, Meaning(t, params), q, params)
    decreases t, 2
  {
    hide Sum, SumTail, ProductTail, Factor, Primary, Skip, Apply, TextOf;
    StandsIn(t, s, p, q);
    hide Stands;
    if t.Bin? {
      hide Product;
      var k := OperatorAt(t, s, p, q);
      ProductReads(t.left, s, p, k - |t.ws|, params);
      SkipTo(s, k - |t.ws|, k);
      FactorReads(t.right, s, k + 1, q, params);
      if Meaning(t.left, params).Ok? {
        ProductTailAt(s, Meaning(t.left, params).value, k - |t.ws|, k, params);
      }
    } else {
      FactorReads(t, s, p, q, params);
    }
  }

  /** Where the operator of a binary expression is. */
  lemma OperatorAt(t: Tree, s: string, p: nat, q: nat) returns (k: nat)
    requires WellFormed(t) && t.Bin? && Stands(t, s, p, q)
    ensures p + |t.ws| <= k < q <= |s| && s[k] == t.op && Spaces(s[k - |t.ws|..k])
    ensures Stands(t.left, s, p, k - |t.ws|) && Stands(t.right, s, k + 1, q)
  {
    var before := TextOf(t.left) + t.ws;
    Split3(s, p, q, before, t.op, TextOf(t.right));
    k := p + |before|;
    Split2(s, p, k, TextOf(t.left), t.ws);
    var m := k - |t.ws|;
    if m < k { assert s[m] == t.ws[0]; }
  }

  lemma {:induction false} SumReads(t: Tree, s: string, p: nat, q: nat, params: Params)
    requires WellFormed(t) && Stands(t, s, p, q) && q <= |s| && NoProductNext(s, q)
    ensures Sum(s, p, params) == ThenSum(s, Meaning(t, params), q, params)
    decreases t, 3
  {
    hide SumTail, Product, ProductTail, Factor, Primary, Skip, Apply, TextOf;
    StandsIn(t, s, p, q);
    hide Stands;
    SkipTwice(s, q);
    ProductTailStops(s, q, params);
    if IsProduct(t) {
      ProductReads(t, s, p, q, params);
    } else {
      hide Sum;
      var k := OperatorAt(t, s, p, q);
      SkipTo(s, k - |t.ws|, k);
      SumReads(t.left, s, p, k - |t.ws|, params);
      ProductReads(t.right, s, k + 1, q, params);
      if Meaning(t.left, params).Ok? {
        SumTailAt(s, Meaning(t.left, params).value, k - |t.ws|, k, params);
      }
    }
  }

  /** Skipping twice is skipping once, also for what follows. */
  lemma SkipTwice(s: string, p: nat)
    requires p <= |s|
    ensures Skip(s, Skip(s, p)) == Skip(s, p)
    ensures forall v, params :: SumTail(s, v, Skip(s, p), params) == SumTail(s, v, p, params)
  {
    var q := Skip(s, p);
    assert s[q..q] == "";
    SkipTo(s, q, q);
  }

  /** Main result, first half: a sentence of the grammar, with white space around it, evaluates to its meaning, be it a
      value or the first error. */
  lemma SentenceMeans(t: Tree, close: string, params: Params)
    requires WellFormed(t) && Spaces(close)
    ensures Eval(TextOf(t) + close, params) == Meaning(t, params)
  {
    var s := TextOf(t) + close;
    var q := |TextOf(t)|;
    assert s[0..q] == TextOf(t) && s[q..|s|] == close;
    SkipTo(s, q, |s|);
    SkipTo(s, |s|, |s|) by { assert s[|s|..|s|] == ""; }
    assert q < |s| ==> s[q] == close[0];
    SumReads(t, s, 0, q, params);
  }

  // ---- Nothing else is accepted ----

  /** t is at p, white space follows it up to q, and it means v. */
  ghost predicate Found(t: Tree, s: string, p: nat, q: nat, v: Value, params: Params) {
    && WellFormed(t) && Meaning(t, params) == Ok(v)
    && p + |TextOf(t)| <= q <= |s| && s[p..p + |TextOf(t)|] == TextOf(t) && Spaces(s[p + |TextOf(t)|..q])
  }

  /** As Found, with nothing after it. */
  ghost predicate FoundExactly(t: Tree, s: string, p: nat, q: nat, v: Value, params: Params) {
    Found(t, s, p, q, v, params) && p + |TextOf(t)| == q
  }

  lemma SignFound(operand: Tree, s: string, p: nat, q: nat, r: nat, v: Value, w: Value, params: Params)
    requires p <= q < |s| && Spaces(s[p..q]) && IsSumOp(s[q])
    requires IsFactor(operand) && FoundExactly(operand, s, q + 1, r, v, params) && ApplySign(s[q] == '-', v) == Ok(w)
    ensures FoundExactly(Sign(s[p..q], s[q] == '-', operand), s, p, r, w, params)
  {
    hide ApplySign;
    var t := Sign(s[p..q], s[q] == '-', operand);
    assert TextOf(t) == s[p..r] by { SignText(s, p, q, r); }
    assert WellFormed(t) && Meaning(t, params) == Ok(w);
    IsExactly(t, s, p, r, w, params);
  }

  lemma SignText(s: string, p: nat, q: nat, r: nat)
    requires p <= q < r <= |s| && IsSumOp(s[q])
    ensures s[p..q] + (if s[q] == '-' then "-" else "+") + s[q + 1..r] == s[p..r]
  {
    assert (if s[q] == '-' then "-" else "+") == [s[q]];
    JoinText(s, p, p, q, r);
    assert s[p..p] == "";
  }

  lemma IsExactly(t: Tree, s: string, p: nat, r: nat, v: Value, params: Params)
    requires WellFormed(t) && Meaning(t, params) == Ok(v) && p <= r <= |s| && TextOf(t) == s[p..r]
    ensures FoundExactly(t, s, p, r, v, params)
  {
    hide TextOf, WellFormed, Meaning;
    assert |s[p..r]| == r - p;
    assert s[r..r] == "";
  }

  lemma WidenFound(inner: Tree, s: string, p: nat, q: nat, r: nat, v: Value, params: Params)
    requires p <= q <= |s| && Spaces(s[p..q]) && IsFactor(inner) && FoundExactly(inner, s, q, r, v, params)
    ensures FoundExactly(Widen(s[p..q], inner), s, p, r, v, params)
  {
    WidenText(s[p..q], inner, params);
    hide Meaning, WellFormed, TextOf;
    assert s[p..r] == s[p..q] + s[q..r];
    assert s[r..r] == "";
  }

  lemma {:induction false} FactorSound(s: string, p: nat, params: Params) returns (t: Tree)
    requires p <= |s| && Factor(s, p, params).Good?
    ensures IsFactor(t) && FoundExactly(t, s, p, Factor(s, p, params).pos, Factor(s, p, params).v, params)
    decreases |s| - p, 2
  {
    hide Sum, SumTail, Product, ProductTail, Primary, Skip, ApplySign, FoundExactly, TextOf;
    var q := Skip(s, p);
    if q < |s| && IsSumOp(s[q]) {
      var operand := FactorSound(s, q + 1, params);
      var f := Factor(s, q + 1, params);
      t := Sign(s[p..q], s[q] == '-', operand);
      SignFound(operand, s, p, q, f.pos, f.v, ApplySign(s[q] == '-', f.v).value, params);
    } else {
      var inner := PrimarySound(s, q, params);
      t := Widen(s[p..q], inner);
      WidenFound(inner, s, p, q, Primary(s, q, params).pos, Primary(s, q, params).v, params);
    }
  }

  /** The tree with more white space in front. */
  function Widen(ws: string, t: Tree): Tree
    requires IsFactor(t)
  {
    match t
    case Lit(w, digits) => Lit(ws + w, digits)
    case Name(w, name) => Name(ws + w, name)
    case Paren(w, inner, close) => Paren(ws + w, inner, close)
    case Sign(w, neg, operand) => Sign(ws + w, neg, operand)
  }

  lemma WidenText(ws: string, t: Tree, params: Params)
    requires IsFactor(t) && WellFormed(t) && Spaces(ws)
    ensures IsFactor(Widen(ws, t)) && WellFormed(Widen(ws, t)) && TextOf(Widen(ws, t)) == ws + TextOf(t)
    ensures Meaning(Widen(ws, t), params) == Meaning(t, params)
  {
    match t
    case Lit(w, digits) => assert ws + w + digits == ws + (w + digits);
    case Name(w, name) => assert ws + w + name == ws + (w + name);
    case Paren(w, inner, close) =>
      assert ws + w + "(" + TextOf(inner) + close + ")" == ws + (w + "(" + TextOf(inner) + close + ")");
    case Sign(w, neg, operand) =>
      var sign := if neg then "-" else "+";
      assert ws + w + sign + TextOf(operand) == ws + (w + sign + TextOf(operand));
  }

  lemma ParenFound(inner: Tree, s: string, p: nat, q: nat, q1: nat, r: nat, v: Value, params: Params)
    requires p <= q < |s| && Spaces(s[p..q]) && s[q] == '(' && Found(inner, s, q + 1, q1, v, params)
    requires q1 < r <= |s| && Spaces(s[q1..r - 1]) && s[r - 1] == ')'
    ensures q + 1 + |TextOf(inner)| <= r - 1
    ensures FoundExactly(Paren(s[p..q], inner, s[q + 1 + |TextOf(inner)|..r - 1]), s, p, r, v, params)
  {
    var m := q + 1 + |TextOf(inner)|;
    var t := Paren(s[p..q], inner, s[m..r - 1]);
    assert Spaces(s[m..r - 1]) by {
      assert s[m..r - 1] == s[m..q1] + s[q1..r - 1];
    }
    assert TextOf(t) == s[p..r] by { ParenText(s, p, q, m, r); }
    assert WellFormed(t) && Meaning(t, params) == Ok(v);
    IsExactly(t, s, p, r, v, params);
  }

  lemma ParenText(s: string, p: nat, q: nat, m: nat, r: nat)
    requires p <= q < m < r <= |s| && s[q] == '(' && s[r - 1] == ')'
    ensures s[p..q] + "(" + s[q + 1..m] + s[m..r - 1] + ")" == s[p..r]
  {
  }

  lemma TokenFound(s: string, p: nat, q: nat, r: nat)
    requires p <= q < r <= |s| && Spaces(s[p..q])
    ensures s[p..r] == s[p..q] + s[q..r] && s[r..r] == ""
    ensures forall params, v :: WellFormed(Lit(s[p..q], s[q..r])) && Literal(s[q..r]) == Ok(v) ==>
      FoundExactly(Lit(s[p..q], s[q..r]), s, p, r, v, params)
    ensures forall params, v :: WellFormed(Name(s[p..q], s[q..r])) && Lookup(params, s[q..r]) == Ok(v) ==>
      FoundExactly(Name(s[p..q], s[q..r]), s, p, r, v, params)
  {
    hide Literal, Lookup;
    assert s[p..r] == s[p..q] + s[q..r];
    assert s[r..r] == "";
  }

  lemma NameIs(s: string, q: nat, r: nat)
    requires q < r <= |s| && StartsName(s[q]) && forall k :: q <= k < r ==> InName(s[k])
    ensures IsName(s[q..r])
  {
    assert s[q..r][0] == s[q];
  }

  lemma {:induction false} PrimarySound(s: string, p: nat, params: Params) returns (t: Tree)
    requires p <= |s| && Primary(s, p, params).Good?
    ensures IsFactor(t) && FoundExactly(t, s, p, Primary(s, p, params).pos, Primary(s, p, params).v, params)
    decreases |s| - p, 1
  {
    hide Sum, SumTail, Product, ProductTail, Factor, Skip, FoundExactly, TextOf, Literal, Lookup, DigitsEnd, NameEnd, Found;
    var q := Skip(s, p);
    var r := Primary(s, p, params).pos;
    if s[q] == '(' {
      var inner := SumSound(s, q + 1, params);
      var f := Sum(s, q + 1, params);
      ParenFound(inner, s, p, q, f.pos, r, f.v, params);
      t := Paren(s[p..q], inner, s[q + 1 + |TextOf(inner)|..r - 1]);
    } else {
      TokenFound(s, p, q, r);
      if IsDigit(s[q]) {
        t := Lit(s[p..q], s[q..r]);
      } else {
        NameIs(s, q, r);
        t := Name(s[p..q], s[q..r]);
      }
    }
  }

  lemma {:induction false} ProductSound(s: string, p: nat, params: Params) returns (t: Tree)
    requires p <= |s| && Product(s, p, params).Good?
    ensures IsProduct(t) && Found(t, s, p, Product(s, p, params).pos, Product(s, p, params).v, params)
    decreases |s| - p, 3
  {
    hide Sum, SumTail, ProductTail, Factor, Primary, Skip, TextOf, WellFormed, Meaning;
    var left := FactorSound(s, p, params);
    var f := Factor(s, p, params);
    t := ProductTailSound(s, left, f.v, p, f.pos, params);
  }

  /** White space and an operator join a tree and the next one. */
  lemma Joined(left: Tree, right: Tree, op: char, s: string, p: nat, m: nat, q: nat, r: nat, a: Value, b: Value, w: Value,
               params: Params)
    requires Found(left, s, p, m, a, params) && m <= q < |s| && Spaces(s[m..q]) && s[q] == op
    requires Found(right, s, q + 1, r, b, params)
    requires (IsSumOp(op) && IsProduct(right)) || (IsProductOp(op) && IsProduct(left) && IsFactor(right))
    requires Apply(op, a, b) == Ok(w)
    ensures Found(Bin(left, s[p + |TextOf(left)|..q], op, right), s, p, r, w, params)
  {
    hide TextOf, WellFormed, Meaning, Apply;
    var l := p + |TextOf(left)|;
    var e := q + 1 + |TextOf(right)|;
    assert s[l..q] == s[l..m] + s[m..q];
    BinMeans(left, s[l..q], op, right, a, b, w, params);
    BinText(left, right, s, p, l, q, e);
    IsFound(Bin(left, s[l..q], op, right), s, p, e, r, w, params);
  }

  lemma BinText(left: Tree, right: Tree, s: string, p: nat, l: nat, q: nat, e: nat)
    requires p <= l <= q < e <= |s| && s[p..l] == TextOf(left) && s[q + 1..e] == TextOf(right)
    ensures TextOf(Bin(left, s[l..q], s[q], right)) == s[p..e]
  {
    JoinText(s, p, l, q, e);
  }

  lemma IsFound(t: Tree, s: string, p: nat, e: nat, r: nat, v: Value, params: Params)
    requires WellFormed(t) && Meaning(t, params) == Ok(v) && p <= e <= r <= |s| && TextOf(t) == s[p..e]
    requires Spaces(s[e..r])
    ensures Found(t, s, p, r, v, params)
  {
    hide TextOf, WellFormed, Meaning;
    assert |s[p..e]| == e - p;
  }

  lemma BinMeans(left: Tree, ws: string, op: char, right: Tree, a: Value, b: Value, w: Value, params: Params)
    requires WellFormed(left) && WellFormed(right) && Spaces(ws)
    requires (IsSumOp(op) && IsProduct(right)) || (IsProductOp(op) && IsProduct(left) && IsFactor(right))
    requires Meaning(left, params) == Ok(a) && Meaning(right, params) == Ok(b) && Apply(op, a, b) == Ok(w)
    ensures WellFormed(Bin(left, ws, op, right)) && Meaning(Bin(left, ws, op, right), params) == Ok(w)
  {
    hide Apply;
  }

  lemma JoinText(s: string, p: nat, l: nat, q: nat, e: nat)
    requires p <= l <= q < e <= |s|
    ensures s[p..e] == s[p..l] + s[l..q] + [s[q]] + s[q + 1..e]
  {
  }

  /** More white space may follow. */
  lemma FoundIn(t: Tree, s: string, p: nat, m: nat, q: nat, v: Value, params: Params)
    requires Found(t, s, p, m, v, params) && m <= q <= |s| && Spaces(s[m..q])
    ensures Found(t, s, p, q, v, params) && p + |TextOf(t)| <= q
  {
    hide TextOf, WellFormed, Meaning;
    var l := p + |TextOf(t)|;
    assert s[l..q] == s[l..m] + s[m..q];
  }

  lemma {:induction false} ProductTailSound(s: string, left: Tree, a: Value, p: nat, m: nat, params: Params)
    returns (t: Tree)
    requires m <= |s| && IsProduct(left) && Found(left, s, p, m, a, params) && ProductTail(s, a, m, params).Good?
    ensures IsProduct(t)
    ensures Found(t, s, p, ProductTail(s, a, m, params).pos, ProductTail(s, a, m, params).v, params)
    decreases |s| - m, 5
  {
    hide Sum, SumTail, Product, Factor, Primary, Skip, TextOf, WellFormed, Meaning, Apply, Found;
    var q := Skip(s, m);
    FoundIn(left, s, p, m, q, a, params);
    if q < |s| && IsProductOp(s[q]) {
      var right := FactorSound(s, q + 1, params);
      var f := Factor(s, q + 1, params);
      var joined := Bin(left, s[p + |TextOf(left)|..q], s[q], right);
      Joined(left, right, s[q], s, p, m, q, f.pos, a, f.v, Apply(s[q], a, f.v).value, params);
      t := ProductTailSound(s, joined, Apply(s[q], a, f.v).value, p, f.pos, params);
    } else {
      t := left;
    }
  }

  lemma {:induction false} SumSound(s: string, p: nat, params: Params) returns (t: Tree)
    requires p <= |s| && Sum(s, p, params).Good?
    ensures Found(t, s, p, Sum(s, p, params).pos, Sum(s, p, params).v, params)
    decreases |s| - p, 4
  {
    hide SumTail, Product, ProductTail, Factor, Primary, Skip, TextOf, WellFormed, Meaning;
    var left := ProductSound(s, p, params);
    var f := Product(s, p, params);
    t := SumTailSound(s, left, f.v, p, f.pos, params);
  }

  lemma {:induction false} SumTailSound(s: string, left: Tree, a: Value, p: nat, m: nat, params: Params)
    returns (t: Tree)
    requires m <= |s| && Found(left, s, p, m, a, params) && SumTail(s, a, m, params).Good?
    ensures Found(t, s, p, SumTail(s, a, m, params).pos, SumTail(s, a, m, params).v, params)
    decreases |s| - m, 5
  {
    hide Sum, Product, ProductTail, Factor, Primary, Skip, TextOf, WellFormed, Meaning, Apply, Found;
    var q := Skip(s, m);
    FoundIn(left, s, p, m, q, a, params);
    if q < |s| && IsSumOp(s[q]) {
      var right := ProductSound(s, q + 1, params);
      var f := Product(s, q + 1, params);
      var joined := Bin(left, s[p + |TextOf(left)|..q], s[q], right);
      Joined(left, right, s[q], s, p, m, q, f.pos, a, f.v, Apply(s[q], a, f.v).value, params);
      t := SumTailSound(s, joined, Apply(s[q], a, f.v).value, p, f.pos, params);
    } else {
      t := left;
    }
  }

  ghost predicate IsSentence(s: string, t: Tree, close: string) {
    WellFormed(t) && Spaces(close) && s == TextOf(t) + close
  }

  /** Main result: evaluation succeeds with a value exactly when the text is a sentence that means that value. */
  lemma EvalIsMeaning(s: string, params: Params, v: Value)
    ensures Eval(s, params) == Ok(v) <==> exists t, close :: IsSentence(s, t, close) && Meaning(t, params) == Ok(v)
  {
    if Eval(s, params) == Ok(v) {
      var t := SumSound(s, 0, params);
      var m := |TextOf(t)|;
      var p := Sum(s, 0, params).pos;
      assert s[m..] == s[m..p] + s[p..|s|];
      assert s == s[0..m] + s[m..];
      assert IsSentence(s, t, s[m..]);
    }
    if exists t, close :: IsSentence(s, t, close) && Meaning(t, params) == Ok(v) {
      var t, close :| IsSentence(s, t, close) && Meaning(t, params) == Ok(v);
      SentenceMeans(t, close, params);
    }
  }

  // ---- Printing expressions ----

  /** An expression tree, without white space and parentheses. */
  datatype Expr =
    | Number(digits: string)
    | Parameter(name: string)
    | Unary(neg: bool, operand: Expr)
    | Binary(left: Expr, op: char, right: Expr)

  predicate Proper(e: Expr) {
    match e
    case Number(digits) => digits != "" && AllDigits(digits)
    case Parameter(name) => IsName(name)
    case Unary(_, operand) => Proper(operand)
    case Binary(left, op, right) => (IsSumOp(op) || IsProductOp(op)) && Proper(left) && Proper(right)
  }

  /** What the last step of an expression makes of its operands' values. */
  ghost function Denote(e: Expr, params: Params): Result<Value>
    requires Proper(e)
  {
    match e
    case Number(digits) => Literal(digits)
    case Parameter(name) => Lookup(params, name)
    case Unary(neg, operand) =>
      (match Denote(operand, params)
       case Err(x) => Err(x)
       case Ok(v) => ApplySign(neg, v))
    case Binary(left, op, right) =>
      (match Denote(left, params)
       case Err(x) => Err(x)
       case Ok(a) =>
         match Denote(right, params)
         case Err(x) => Err(x)
         case Ok(b) => Apply(op, a, b))
  }

  /** The expression with as few parentheses as the place allows: 0 in a sum, 1 in a product, 2 under a sign. */
  function Print(e: Expr, place: nat): Tree {
    match e
    case Number(digits) => Lit("", digits)
    case Parameter(name) => Name("", name)
    case Unary(neg, operand) => Sign("", neg, Print(operand, 2))
    case Binary(left, op, right) =>
      var own := if IsSumOp(op) then 0 else 1;
      var body := Bin(Print(left, own), "", op, Print(right, own + 1));
      if place > own then Paren("", body, "") else body
  }

  lemma {:induction false} PrintMeans(e: Expr, place: nat, params: Params)
    requires Proper(e) && place <= 2
    ensures WellFormed(Print(e, place)) && Meaning(Print(e, place), params) == Denote(e, params)
    ensures (place >= 1 ==> IsProduct(Print(e, place))) && (place == 2 ==> IsFactor(Print(e, place)))
  {
    hide Apply;
    match e
    case Number(_) =>
    case Parameter(_) =>
    case Unary(_, operand) => PrintMeans(operand, 2, params);
    case Binary(left, op, right) =>
      var own := if IsSumOp(op) then 0 else 1;
      PrintMeans(left, own, params);
      PrintMeans(right, own + 1, params);
  }

  /** The expression n occurs in e. */
  ghost predicate Within(n: Expr, e: Expr) {
    n == e ||
    match e
    case Number(_) => false
    case Parameter(_) => false
    case Unary(_, operand) => Within(n, operand)
    case Binary(left, _, right) => Within(n, left) || Within(n, right)
  }

  /** The operands have values but the step itself overflows, divides by zero, misuses a text or lacks a parameter. */
  ghost predicate Fails(n: Expr, params: Params) {
    match n
    case Number(digits) => AllDigits(digits) && !Fits(DigitsValue(digits))
    case Parameter(name) => name !in params
    case Unary(neg, operand) =>
      Proper(operand) && Denote(operand, params).Ok? &&
      (!Denote(operand, params).value.isInt || (neg && Denote(operand, params).value.i as int == MIN64))
    case Binary(left, op, right) =>
      Proper(left) && Proper(right) && Denote(left, params).Ok? && Denote(right, params).Ok? &&
      StepFails(op, Denote(left, params).value, Denote(right, params).value)
  }

  ghost predicate StepFails(op: char, a: Value, b: Value) {
    if !a.isInt || !b.isInt then op != '+'
    else
      var x, y := a.i as int, b.i as int;
      if op == '+' then !Fits(x + y)
      else if op == '-' then !Fits(x - y)
      else if op == '*' then !Fits(x * y)
      else y == 0 || (x == MIN64 && y == -1)
  }

  lemma ApplyFails(op: char, a: Value, b: Value)
    requires IsSumOp(op) || IsProductOp(op)
    ensures Apply(op, a, b).Err? <==> StepFails(op, a, b)
  {
    if op == '/' && a.isInt && b.isInt && b.i != 0 {
      QuotientFits(a.i as int, b.i as int);
    }
  }

  /** An expression has no value exactly when one of its nodes fails. */
  lemma {:induction false} FailsAtANode(e: Expr, params: Params)
    requires Proper(e)
    ensures Denote(e, params).Err? <==> exists n :: Within(n, e) && Fails(n, params)
    decreases e, 1
  {
    hide Apply, StepFails;
    match e
    case Number(_) =>
      if Denote(e, params).Err? { assert Within(e, e) && Fails(e, params); }
    case Parameter(_) =>
      if Denote(e, params).Err? { assert Within(e, e) && Fails(e, params); }
    case Unary(_, operand) =>
      FailsAtANode(operand, params);
      if Denote(e, params).Err? {
        if Denote(operand, params).Ok? {
          assert Within(e, e) && Fails(e, params);
        } else {
          var n :| Within(n, operand) && Fails(n, params);
          assert Within(n, e);
        }
      }
    case Binary(left, op, right) =>
      BinaryFails(e, params);
  }

  lemma {:induction false} BinaryFails(e: Expr, params: Params)
    requires Proper(e) && e.Binary?
    ensures Denote(e, params).Err? <==> exists n :: Within(n, e) && Fails(n, params)
    decreases e, 0
  {
    hide Apply, StepFails;
    FailsAtANode(e.left, params);
    FailsAtANode(e.right, params);
    if Denote(e.left, params).Ok? && Denote(e.right, params).Ok? {
      ApplyFails(e.op, Denote(e.left, params).value, Denote(e.right, params).value);
      if Denote(e, params).Err? { assert Within(e, e) && Fails(e, params); }
    } else if Denote(e.left, params).Err? {
      var n :| Within(n, e.left) && Fails(n, params);
      assert Within(n, e);
    } else {
      var n :| Within(n, e.right) && Fails(n, params);
      assert Within(n, e);
    }
  }

  // ---- Templates ----

  lemma FindOpenAt(s: string, p: nat, q: nat)
    requires p <= q <= |s| && (q < |s| ==> OpensAt(s, q)) && forall k :: p <= k < q ==> !OpensAt(s, k)
    ensures FindOpen(s, p) == q
  {
  }

  lemma FindCloseAt(s: string, p: nat, q: nat)
    requires p <= q < |s| && s[q] == '}' && forall k :: p <= k < q ==> s[k] != '}'
    ensures FindClose(s, p) == q
  {
  }

  /** Fixed text, a value and the rest, or the first error of the two. */
  ghost function ThenText(raw: string, value: Result<string>, rest: Result<string>): Result<string> {
    if value.Err? then value else Prepend(raw + value.value, rest)
  }

  ghost function TextResult(r: Result<Value>): Result<string> {
    if r.Err? then Err(r.error) else Ok(r.value.Text())
  }

  /** Fixed text, then a hole, then the rest of a template. */
  lemma ResolveHole(raw: string, inner: string, rest: string, params: Params)
    requires forall k :: 0 <= k < |raw| ==> !OpensAt(raw, k)
    requires '}' !in inner
    ensures Resolve(raw + "${" + inner + "}" + rest, params) == ThenText(raw, Hole(Trim(inner), params), Resolve(rest, params))
  {
    var text := raw + "${" + inner + "}" + rest;
    forall k | 0 <= k < |raw| ensures !OpensAt(text, k) {
      assert !OpensAt(raw, k);
    }
    FindOpenAt(text, 0, |raw|);
    var end := |raw| + 2 + |inner|;
    FindCloseAt(text, |raw| + 2, end);
    assert text[|raw| + 2..end] == inner && text[..|raw|] == raw && text[end + 1..] == rest;
  }

  lemma ResolveFixed(raw: string, params: Params)
    requires forall k :: 0 <= k < |raw| ==> !OpensAt(raw, k)
    ensures Resolve(raw, params) == Ok(raw)
  {
    FindOpenAt(raw, 0, |raw|);
  }

  /** No white space at either end, and no closing brace. */
  predicate Tight(s: string) {
    s != "" && !IsSpace(s[0]) && !IsSpace(s[|s| - 1]) && '}' !in s
  }

  lemma TightJoin(a: string, op: char, b: string)
    requires Tight(a) && Tight(b) && (IsSumOp(op) || IsProductOp(op))
    ensures Tight(a + "" + [op] + b) && Tight([op] + b) && Tight("" + "(" + (a + "" + [op] + b) + "" + ")")
  {
    assert a + "" + [op] + b == a + [op] + b;
    var t := a + [op] + b;
    assert t[0] == a[0] && t[|t| - 1] == b[|b| - 1];
    assert "" + "(" + t + "" + ")" == "(" + t + ")";
  }

  lemma TightWord(s: string)
    requires s != "" && forall k :: 0 <= k < |s| ==> InName(s[k])
    ensures Tight("" + s)
  {
    assert "" + s == s;
  }

  lemma TightSign(neg: bool, s: string)
    requires Tight(s)
    ensures Tight("" + (if neg then "-" else "+") + s)
  {
    TightJoin(s, if neg then '-' else '+', s);
    assert "" + (if neg then "-" else "+") + s == [if neg then '-' else '+'] + s;
  }

  lemma {:induction false} PrintIsTight(e: Expr, place: nat)
    requires Proper(e)
    ensures Tight(TextOf(Print(e, place)))
  {
    hide Tight;
    match e
    case Number(digits) => TightWord(digits);
    case Parameter(name) => TightWord(name);
    case Unary(neg, operand) =>
      PrintIsTight(operand, 2);
      TightSign(neg, TextOf(Print(operand, 2)));
    case Binary(left, op, right) =>
      var own := if IsSumOp(op) then 0 else 1;
      PrintIsTight(left, own);
      PrintIsTight(right, own + 1);
      TightJoin(TextOf(Print(left, own)), op, TextOf(Print(right, own + 1)));
  }

  /** A hole with a printed expression has its value's text or its first error; the name of a parameter means the same
      as a hole and as an expression. */
  lemma HoleMeans(e: Expr, params: Params)
    requires Proper(e) && (e.Parameter? || TextOf(Print(e, 0)) !in params)
    ensures TextOf(Print(e, 0)) != "" && Hole(TextOf(Print(e, 0)), params) == TextResult(Denote(e, params))
  {
    var s := TextOf(Print(e, 0));
    PrintIsTight(e, 0);
    if e.Parameter? && s in params {
      assert s == e.name;
      NamedHole(e.name, params);
    } else {
      PrintMeans(e, 0, params);
      SentenceMeans(Print(e, 0), "", params);
      assert s + "" == s;
    }
  }

  lemma NamedHole(name: string, params: Params)
    requires name != "" && name in params
    ensures Hole(name, params) == TextResult(Lookup(params, name))
  {
  }

  /** Main result: a printed expression inside a template is replaced by its value's text, and the template fails
      with the expression's first error. An expression other than a lone parameter whose text is itself the name of a
      parameter, be it a literal or a compound, is excluded: it is read as the name. */
  lemma PrintedExpressionResolves(e: Expr, before: string, after: string, params: Params)
    requires Proper(e) && (e.Parameter? || TextOf(Print(e, 0)) !in params)
    requires (forall k :: 0 <= k < |before| ==> !OpensAt(before, k)) && (forall k :: 0 <= k < |after| ==> !OpensAt(after, k))
    ensures Resolve(before + "${" + TextOf(Print(e, 0)) + "}" + after, params) ==
      ThenText(before, TextResult(Denote(e, params)), Ok(after))
  {
    hide Resolve, Hole, TextOf, Print, Denote, ThenText;
    var s := TextOf(Print(e, 0));
    PrintIsTight(e, 0);
    HoleMeans(e, params);
    ResolveHole(before, s, after, params);
    ResolveFixed(after, params);
  }
}
