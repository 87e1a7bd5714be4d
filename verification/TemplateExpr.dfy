/** The evaluator itself: recursive descent over a position in the text, with the first error kept. */
module TemplateExpr {
  import opened Wrappers
  import opened CheckedInt
  import opened TemplateSpec
  import TemplateGrammar

  lemma FindOpenFrom(s: string, p: nat)
    requires p <= |s|
    ensures FindOpen(s, p) == p + FindOpen(s[p..], 0)
  {
    var q := FindOpen(s[p..], 0);
    forall k | p <= k < p + q ensures !OpensAt(s, k) {
      assert !OpensAt(s[p..], k - p);
    }
    FirstIs(s, p, p + q);
  }

  lemma FirstIs(s: string, p: nat, q: nat)
    requires p <= q <= |s| && (q < |s| ==> OpensAt(s, q)) && forall k :: p <= k < q ==> !OpensAt(s, k)
    ensures FindOpen(s, p) == q
  {
  }

  lemma FindCloseFrom(s: string, p: nat, k: nat)
    requires p <= |s| && k <= |s| - p
    ensures FindClose(s, p + k) == p + FindClose(s[p..], k)
  {
    var q := FindClose(s[p..], k);
    assert forall i :: k <= i < q ==> s[p..][i] == s[p + i];
  }

  lemma PrependNothing(r: Result<string>)
    ensures Prepend("", r) == r
  {
    if r.Ok? { assert "" + r.value == r.value; }
  }

  /** One hole: what is resolved so far, the hole, and the rest. */
  lemma ResolveStep(text: string, pos: nat, params: Params)
    requires pos <= |text|
    ensures var start := FindOpen(text, pos);
      && (start == |text| ==> Resolve(text[pos..], params) == Ok(text[pos..]))
      && (start < |text| ==>
            var end := FindClose(text, start + 2);
            && (end == |text| ==> Resolve(text[pos..], params) == Err(Unclosed))
            && (end < |text| ==>
                  var hole := Hole(Trim(text[start + 2..end]), params);
                  && (hole.Err? ==> Resolve(text[pos..], params) == Err(hole.error))
                  && (hole.Ok? ==> Resolve(text[pos..], params) ==
                                   Prepend(text[pos..start] + hole.value, Resolve(text[end + 1..], params)))))
  {
    hide FindOpen, FindClose, Trim, Hole, Prepend, Resolve, OpensAt;
    OpenIsInside(text, pos);
    var start := FindOpen(text, pos);
    if start == |text| {
      ResolveFixedFrom(text, pos, params);
    } else {
      OpenHasRoom(text, start);
      CloseIsAfter(text, start + 2);
      if FindClose(text, start + 2) == |text| {
        ResolveUnclosed(text, pos, params);
      } else {
        ResolveHoleFrom(text, pos, params);
      }
    }
  }

  lemma ResolveFixedFrom(text: string, pos: nat, params: Params)
    requires pos <= |text| && FindOpen(text, pos) == |text|
    ensures Resolve(text[pos..], params) == Ok(text[pos..])
  {
    hide FindOpen, FindClose, Hole, Resolve;
    FindOpenFrom(text, pos);
    ResolveUnfolds(text[pos..], params);
  }

  lemma ResolveUnclosed(text: string, pos: nat, params: Params)
    requires pos <= |text| && pos <= FindOpen(text, pos) && FindOpen(text, pos) + 2 <= |text|
    requires FindClose(text, FindOpen(text, pos) + 2) == |text|
    ensures Resolve(text[pos..], params) == Err(Unclosed)
  {
    hide FindOpen, FindClose, Hole, Resolve, Trim, Prepend;
    var start := FindOpen(text, pos);
    FindOpenFrom(text, pos);
    FindCloseFrom(text, pos, start - pos + 2);
    assert pos + (start - pos + 2) == start + 2;
    ResolveUnfolds(text[pos..], params);
  }

  lemma ResolveHoleFrom(text: string, pos: nat, params: Params)
    requires pos <= |text| && pos <= FindOpen(text, pos) && FindOpen(text, pos) + 2 <= |text|
    requires FindOpen(text, pos) + 2 <= FindClose(text, FindOpen(text, pos) + 2) < |text|
    ensures var start := FindOpen(text, pos); var end := FindClose(text, start + 2);
      var hole := Hole(Trim(text[start + 2..end]), params);
      && (hole.Err? ==> Resolve(text[pos..], params) == Err(hole.error))
      && (hole.Ok? ==> Resolve(text[pos..], params) ==
                       Prepend(text[pos..start] + hole.value, Resolve(text[end + 1..], params)))
  {
    hide FindOpen, FindClose, Hole, Resolve, Trim, Prepend;
    var start := FindOpen(text, pos);
    FindOpenFrom(text, pos);
    FindCloseFrom(text, pos, start - pos + 2);
    assert pos + (start - pos + 2) == start + 2;
    var end := FindClose(text, start + 2);
    Slices(text, pos, start, end);
    ResolveParts(text[pos..], start - pos, end - pos, text[start + 2..end], text[pos..start], text[end + 1..], params);
  }

  /** A text whose first hole is given by its parts. */
  lemma ResolveParts(s: string, start: nat, end: nat, inner: string, before: string, after: string, params: Params)
    requires start + 2 <= end < |s| && FindOpen(s, 0) == start && FindClose(s, start + 2) == end
    requires s[start + 2..end] == inner && s[..start] == before && s[end + 1..] == after
    ensures var hole := Hole(Trim(inner), params);
      && (hole.Err? ==> Resolve(s, params) == Err(hole.error))
      && (hole.Ok? ==> Resolve(s, params) == Prepend(before + hole.value, Resolve(after, params)))
  {
    ResolveUnfolds(s, params);
    hide FindOpen, FindClose, Hole, Resolve, Trim, Prepend;
  }

  lemma OpenHasRoom(s: string, k: nat)
    requires OpensAt(s, k)
    ensures k + 2 <= |s|
  {
  }

  lemma CloseIsAfter(s: string, p: nat)
    requires p <= |s|
    ensures p <= FindClose(s, p) <= |s|
  {
  }

  lemma OpenIsInside(s: string, p: nat)
    requires p <= |s|
    ensures p <= FindOpen(s, p) <= |s| && (FindOpen(s, p) < |s| ==> OpensAt(s, FindOpen(s, p)))
  {
  }

  lemma Slices(text: string, pos: nat, start: nat, end: nat)
    requires pos <= start && start + 2 <= end < |text|
    ensures var rest := text[pos..];
      && rest[start - pos + 2..end - pos] == text[start + 2..end]
      && rest[..start - pos] == text[pos..start] && rest[end - pos + 1..] == text[end + 1..]
  {
  }

  lemma ResolveUnfolds(s: string, params: Params)
    ensures var start := FindOpen(s, 0);
      && (start == |s| ==> Resolve(s, params) == Ok(s))
      && (start < |s| ==>
            start + 2 <= |s| &&
            var end := FindClose(s, start + 2);
            && (end == |s| ==> Resolve(s, params) == Err(Unclosed))
            && (end < |s| ==>
                  var hole := Hole(Trim(s[start + 2..end]), params);
                  && (hole.Err? ==> Resolve(s, params) == Err(hole.error))
                  && (hole.Ok? ==>
                        Resolve(s, params) == Prepend(s[..start] + hole.value, Resolve(s[end + 1..], params)))))
  {
    OpenIsInside(s, 0);
    hide FindOpen, FindClose, Trim, Hole, Prepend;
  }

  lemma HoleDone(done: string, raw: string, value: string, rest: Result<string>)
    ensures Prepend(done, Prepend(raw + value, rest)) == Prepend(done + raw + value, rest)
  {
    if rest.Ok? {
      assert done + ((raw + value) + rest.value) == (done + raw + value) + rest.value;
    }
  }

  lemma NothingLeft(text: string, at: nat, params: Params)
    requires at == |text|
    ensures Resolve(text[at..], params) == Ok("")
    ensures forall out :: Prepend(out, Resolve(text[at..], params)) == Ok(out)
  {
    assert text[at..] == "";
    assert forall out: string :: out + "" == out;
  }

  lemma SumIs(s: string, p: nat, params: Params)
    requires p <= |s|
    ensures Product(s, p, params).Bad? ==> Sum(s, p, params) == Product(s, p, params)
    ensures Product(s, p, params).Good? ==>
      Sum(s, p, params) == SumTail(s, Product(s, p, params).v, Product(s, p, params).pos, params)
  {
    hide Product, SumTail;
  }

  lemma ProductIs(s: string, p: nat, params: Params)
    requires p <= |s|
    ensures Factor(s, p, params).Bad? ==> Product(s, p, params) == Factor(s, p, params)
    ensures Factor(s, p, params).Good? ==>
      Product(s, p, params) == ProductTail(s, Factor(s, p, params).v, Factor(s, p, params).pos, params)
  {
    hide Factor, ProductTail;
  }

  lemma PrimaryIs(s: string, p: nat, params: Params)
    requires p <= |s| && Skip(s, p) < |s|
    ensures var q := Skip(s, p);
      && (s[q] == '(' ==>
            var r := Sum(s, q + 1, params);
            && (r.Bad? ==> Primary(s, p, params) == r)
            && (r.Good? ==>
                  var e := Skip(s, r.pos);
                  Primary(s, p, params) == if e < |s| && s[e] == ')' then Good(r.v, e + 1) else Bad(MissingParen)))
      && (s[q] != '(' && IsDigit(s[q]) ==>
            Primary(s, p, params) == At(Literal(s[q..DigitsEnd(s, q)]), DigitsEnd(s, q)))
      && (s[q] != '(' && !IsDigit(s[q]) && StartsName(s[q]) ==>
            Primary(s, p, params) == At(Lookup(params, s[q..NameEnd(s, q)]), NameEnd(s, q)))
      && (s[q] != '(' && !IsDigit(s[q]) && !StartsName(s[q]) ==> Primary(s, p, params) == Bad(BadCharacter))
  {
    hide Sum, Skip, Literal, Lookup, DigitsEnd, NameEnd, IsDigit, StartsName;
  }

  class TemplateExpr {
    const text: string
    const params: Params
    var expr: string
    var pos: nat
    var error: Option<Error>

    constructor (text: string, params: Params)
      ensures this.text == text && this.params == params && error == None
    {
      this.text, this.params := text, params;
      expr, pos, error := "", 0, None;
    }

    /** Keep the first error. */
    method Fail(e: Error) returns (ok: bool)
      modifies this`error
      ensures !ok && error == if old(error).None? then Some(e) else old(error)
    {
      if error.None? {
        error := Some(e);
      }
      ok := false;
    }

    method SkipSpace()
      requires pos <= |expr|
      modifies this`pos
      ensures pos == Skip(expr, old(pos))
    {
      while pos < |expr| && IsSpace(expr[pos])
        invariant pos <= |expr| && Skip(expr, pos) == Skip(expr, old(pos))
        decreases |expr| - pos
      {
        pos := pos + 1;
      }
    }

    /** The position, the error and the value are those of reading the text. */
    ghost predicate Read(r: Parsed, ok: bool, out: Value)
      reads this
    {
      match r
      case Good(v, p) => ok && out == v && pos == p && error == None
      case Bad(e) => !ok && error == Some(e)
    }

    /** Substitute every hole. */
    method ResolveText() returns (ok: bool, out: string)
      requires error == None
      modifies this
      ensures match Resolve(text, params) { case Ok(s) => ok && out == s && error == None case Err(e) => !ok && error == Some(e) }
    {
      hide Resolve, FindOpen, FindClose, Trim, Eval;
      out := "";
      var at := 0;
      assert text[0..] == text;
      PrependNothing(Resolve(text, params));
      while at < |text|
        invariant at <= |text| && error == None
        invariant Resolve(text, params) == Prepend(out, Resolve(text[at..], params))
      {
        ResolveStep(text, at, params);
        var start := FindOpen(text, at);
        if start == |text| {
          out := out + text[at..];
          return true, out;
        }
        var end := FindClose(text, start + 2);
        if end == |text| {
          ok := Fail(Unclosed);
          return;
        }
        ghost var done := out;
        var inner := TrimSpace(text[start + 2..end]);
        if inner == "" {
          ok := Fail(Empty);
          return;
        }
        out := out + text[at..start];
        if inner in params {
          HoleDone(done, text[at..start], params[inner], Resolve(text[end + 1..], params));
          out := out + params[inner];
        } else {
          var evaluated, value := EvalText(inner);
          if !evaluated {
            return false, out;
          }
          HoleDone(done, text[at..start], value.Text(), Resolve(text[end + 1..], params));
          out := out + value.Text();
        }
        at := end + 1;
      }
      NothingLeft(text, at, params);
      ok := true;
    }

    static method TrimSpace(s: string) returns (inner: string)
      ensures inner == Trim(s)
    {
      var b, e := 0, |s|;
      assert s[0..|s|] == s;
      while b < e && IsSpace(s[b])
        invariant 0 <= b <= e == |s| && Trim(s[b..e]) == Trim(s)
      {
        assert s[b..e][1..] == s[b + 1..e];
        b := b + 1;
      }
      while e > b && IsSpace(s[e - 1])
        invariant b <= e <= |s| && Trim(s[b..e]) == Trim(s)
        invariant b < e ==> !IsSpace(s[b])
      {
        assert s[b..e][..e - b - 1] == s[b..e - 1];
        e := e - 1;
      }
      inner := s[b..e];
    }

    method EvalText(s: string) returns (ok: bool, out: Value)
      requires error == None
      modifies this
      ensures match Eval(s, params) { case Ok(v) => ok && out == v && error == None case Err(e) => !ok && error == Some(e) }
    {
      expr := s;
      pos := 0;
      ok, out := ParseSum();
      if !ok {
        return;
      }
      SkipSpace();
      if pos != |expr| {
        ok := Fail(Trailing);
      }
    }

    /** Add, subtract or join texts. */
    method AddOrJoin(op: char, a: Value, b: Value) returns (ok: bool, out: Value)
      requires IsSumOp(op) && error == None
      modifies this`error
      ensures Applied(Apply(op, a, b), ok, out)
    {
      out := a;
      if op == '+' {
        if a.isInt && b.isInt {
          var overflow, r := AddOverflow(a.i, b.i, 0);
          if overflow {
            ok := Fail(Overflow);
            return;
          }
          out := out.(i := r, s := "", hasText := false);
        } else {
          out := out.(s := a.Text() + b.Text(), isInt := false, hasText := true);
        }
      } else {
        if !a.isInt || !b.isInt {
          ok := Fail(NeedsInteger);
          return;
        }
        var overflow, r := SubOverflow(a.i, b.i, 0);
        if overflow {
          ok := Fail(Overflow);
          return;
        }
        out := out.(i := r, s := "", hasText := false);
      }
      ok := true;
    }

    method MultiplyOrDivide(op: char, a: Value, b: Value) returns (ok: bool, out: Value)
      requires IsProductOp(op) && error == None
      modifies this`error
      ensures Applied(Apply(op, a, b), ok, out)
    {
      out := a;
      if !a.isInt || !b.isInt {
        ok := Fail(NeedsInteger);
        return;
      }
      if op == '*' {
        var overflow, r := MulOverflow(a.i, b.i, 0);
        if overflow {
          ok := Fail(Overflow);
          return;
        }
        out := out.(i := r);
      } else {
        if b.i == 0 {
          ok := Fail(DivisionByZero);
          return;
        }
        QuotientFits(a.i as int, b.i as int);
        if a.i as int == MIN64 && b.i == -1 {
          ok := Fail(Overflow);
          return;
        }
        out := out.(i := TruncDiv(a.i as int, b.i as int) as int64);
      }
      out := out.(s := "", hasText := false);
      ok := true;
    }

    ghost predicate Applied(r: Result<Value>, ok: bool, out: Value)
      reads this
    {
      match r
      case Ok(v) => ok && out == v && error == None
      case Err(e) => !ok && error == Some(e)
    }

    method ParseSum() returns (ok: bool, out: Value)
      requires pos <= |expr| && error == None
      modifies this`pos, this`error
      ensures Read(Sum(expr, old(pos), params), ok, out)
      decreases |expr| - pos, 4
    {
      hide Sum, SumTail, Product, Skip, Apply;
      SumIs(expr, pos, params);
      ok, out := ParseProduct();
      if !ok {
        return;
      }
      while true
        invariant old(pos) < pos <= |expr| && error == None
        invariant Sum(expr, old(pos), params) == SumTail(expr, out, pos, params)
        decreases |expr| - pos
      {
        ghost var p := pos;
        SkipSpace();
        if pos >= |expr| || !IsSumOp(expr[pos]) {
          TemplateGrammar.SumTailStops(expr, p, pos, params);
          return true, out;
        }
        TemplateGrammar.SumTailAt(expr, out, p, pos, params);
        var op := expr[pos];
        pos := pos + 1;
        var rhs;
        ok, rhs := ParseProduct();
        if !ok {
          return;
        }
        ok, out := AddOrJoin(op, out, rhs);
        if !ok {
          return;
        }
      }
    }

    method ParseProduct() returns (ok: bool, out: Value)
      requires pos <= |expr| && error == None
      modifies this`pos, this`error
      ensures Read(Product(expr, old(pos), params), ok, out)
      decreases |expr| - pos, 3
    {
      hide Product, ProductTail, Factor, Skip, Apply;
      ProductIs(expr, pos, params);
      ok, out := ParseFactor();
      if !ok {
        return;
      }
      while true
        invariant old(pos) < pos <= |expr| && error == None
        invariant Product(expr, old(pos), params) == ProductTail(expr, out, pos, params)
        decreases |expr| - pos
      {
        ghost var p := pos;
        SkipSpace();
        if pos >= |expr| || !IsProductOp(expr[pos]) {
          TemplateGrammar.ProductTailStops(expr, p, params);
          return true, out;
        }
        TemplateGrammar.ProductTailAt(expr, out, p, pos, params);
        var op := expr[pos];
        pos := pos + 1;
        var rhs;
        ok, rhs := ParseFactor();
        if !ok {
          return;
        }
        ok, out := MultiplyOrDivide(op, out, rhs);
        if !ok {
          return;
        }
      }
    }

    method ParseFactor() returns (ok: bool, out: Value)
      requires pos <= |expr| && error == None
      modifies this`pos, this`error
      ensures Read(Factor(expr, old(pos), params), ok, out)
      decreases |expr| - pos, 2
    {
      SkipSpace();
      if pos < |expr| && IsSumOp(expr[pos]) {
        var sign := expr[pos];
        pos := pos + 1;
        ok, out := ParseFactor();
        if !ok {
          return;
        }
        if !out.isInt {
          ok := Fail(NeedsInteger);
          return;
        }
        if sign == '-' {
          if out.i as int == MIN64 {
            ok := Fail(Overflow);
            return;
          }
          out := out.(i := -out.i, s := "", hasText := false);
        }
        return;
      }
      ok, out := ParsePrimary();
    }

    method ParsePrimary() returns (ok: bool, out: Value)
      requires pos <= |expr| && error == None
      modifies this`pos, this`error
      ensures Read(Primary(expr, old(pos), params), ok, out)
      decreases |expr| - pos, 1
    {
      hide Primary, Sum, Skip, Literal, Lookup;
      out := Value(false, false, 0, "");
      SkipSpace();
      if pos >= |expr| {
        PrimaryEnds(expr, old(pos), params);
        ok := Fail(Incomplete);
        return;
      }
      PrimaryIs(expr, old(pos), params);
      if expr[pos] == '(' {
        pos := pos + 1;
        ok, out := ParseSum();
        if !ok {
          return;
        }
        SkipSpace();
        if pos >= |expr| || expr[pos] != ')' {
          ok := Fail(MissingParen);
          return;
        }
        pos := pos + 1;
      } else if IsDigit(expr[pos]) {
        ok, out := ParseNumber();
      } else if StartsName(expr[pos]) {
        ok, out := ParseName();
      } else {
        ok := Fail(BadCharacter);
      }
    }

    method ParseNumber() returns (ok: bool, out: Value)
      requires pos < |expr| && IsDigit(expr[pos]) && error == None
      modifies this`pos, this`error
      ensures Read(At(Literal(expr[old(pos)..DigitsEnd(expr, old(pos))]), DigitsEnd(expr, old(pos))), ok, out)
    {
      out := Value(false, false, 0, "");
      var begin := pos;
      while pos < |expr| && IsDigit(expr[pos])
        invariant error == None && begin <= pos <= |expr| && DigitsEnd(expr, pos) == DigitsEnd(expr, begin)
        decreases |expr| - pos
      {
        pos := pos + 1;
      }
      assert DigitsEnd(expr, pos) == pos;
      var digits := expr[begin..pos];
      if !Fits(DigitsValue(digits)) {
        ok := Fail(LiteralOverflow);
        return;
      }
      return true, Value(true, true, DigitsValue(digits) as int64, digits);
    }

    method ParseName() returns (ok: bool, out: Value)
      requires pos < |expr| && StartsName(expr[pos]) && error == None
      modifies this`pos, this`error
      ensures Read(At(Lookup(params, expr[old(pos)..NameEnd(expr, old(pos))]), NameEnd(expr, old(pos))), ok, out)
    {
      out := Value(false, false, 0, "");
      var begin := pos;
      while pos < |expr| && InName(expr[pos])
        invariant error == None && begin <= pos <= |expr| && NameEnd(expr, pos) == NameEnd(expr, begin)
        decreases |expr| - pos
      {
        pos := pos + 1;
      }
      assert NameEnd(expr, pos) == pos;
      var name := expr[begin..pos];
      if name !in params {
        ok := Fail(MissingParam(name));
        return;
      }
      var v := ParseInt(params[name]);
      return true, Value(v.Ok?, true, if v.Ok? then v.value else 0, params[name]);
    }
  }

  lemma PrimaryEnds(s: string, p: nat, params: Params)
    requires p <= |s| && Skip(s, p) == |s|
    ensures Primary(s, p, params) == Bad(Incomplete)
  {
    hide Skip, Sum;
  }
}
