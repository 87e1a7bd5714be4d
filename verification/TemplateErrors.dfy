/** What a text that is no sentence is refused with, and white space and braces around holes. */
module TemplateErrors {
  import opened CheckedInt
  import opened TemplateSpec
  import opened TemplateGrammar

  // ---- Characters ----

  /** The classes of characters by their codes. */
  lemma CharacterClasses(c: char)
    ensures IsSpace(c) <==> c as int == 32 || 9 <= c as int <= 13
    ensures IsDigit(c) <==> 48 <= c as int <= 57
    ensures StartsName(c) <==> 65 <= c as int <= 90 || 97 <= c as int <= 122 || c as int == 95
    ensures InName(c) <==> StartsName(c) || IsDigit(c) || c as int == 46
    ensures IsSumOp(c) <==> c as int == 43 || c as int == 45
    ensures IsProductOp(c) <==> c as int == 42 || c as int == 47
  {
  }

  // ---- Texts that are no sentences ----

  /** A character that starts no operand, no sign and no parenthesis. */
  predicate StartsNothing(c: char) {
    !IsSpace(c) && c != '+' && c != '-' && c != '(' && !IsDigit(c) && !StartsName(c)
  }

  /** A character that continues nothing: no white space, no operator. */
  predicate ContinuesNothing(c: char) {
    !IsSpace(c) && c != '+' && c != '-' && c != '*' && c != '/'
  }

  lemma PrimaryFails(s: string, p: nat, q: nat, params: Params)
    requires p <= |s| && Skip(s, p) == q && (q < |s| ==> StartsNothing(s[q]))
    ensures Primary(s, p, params) == Bad(if q == |s| then Incomplete else BadCharacter)
  {
    hide Sum, Skip, Literal, Lookup;
  }

  lemma OperandFails(s: string, p: nat, q: nat, params: Params)
    requires p <= |s| && Skip(s, p) == q && (q < |s| ==> StartsNothing(s[q]))
    ensures Product(s, p, params) == Bad(if q == |s| then Incomplete else BadCharacter)
    ensures Sum(s, p, params) == Bad(if q == |s| then Incomplete else BadCharacter)
  {
    assert s[q..q] == "";
    SkipTo(s, q, q);
    PrimaryFails(s, q, q, params);
    hide Primary, Skip, SumTail, ProductTail;
  }

  /** Nothing but white space is incomplete, and a character that can start nothing is named as such. */
  lemma NoOperand(ws: string, rest: string, params: Params)
    requires Spaces(ws) && (rest != "" ==> StartsNothing(rest[0]))
    ensures Eval(ws + rest, params) == Err(if rest == "" then Incomplete else BadCharacter)
  {
    var s := ws + rest;
    assert s[0..|ws|] == ws;
    SkipTo(s, 0, |ws|);
    OperandFails(s, 0, |ws|, params);
    hide Sum, Skip;
  }

  /** A sentence with a value, then something that cannot continue it. */
  lemma TrailingText(t: Tree, close: string, rest: string, params: Params)
    requires WellFormed(t) && Spaces(close) && Meaning(t, params).Ok?
    requires rest != "" && ContinuesNothing(rest[0]) && (close == "" ==> !InName(rest[0]))
    ensures Eval(TextOf(t) + close + rest, params) == Err(Trailing)
  {
    var s := TextOf(t) + close + rest;
    var q := |TextOf(t)|;
    var e := q + |close|;
    assert s[0..q] == TextOf(t) && s[q..e] == close && s[e] == rest[0];
    assert q < |s| && s[q] == if close == "" then rest[0] else close[0];
    SkipTo(s, q, e);
    assert s[e..e] == "";
    SkipTo(s, e, e);
    SumReads(t, s, 0, q, params);
    SumTailStops(s, q, e, params);
    hide Sum, SumTail, Skip, TextOf, Meaning;
  }

  /** A sentence, an operator, and nothing or nothing usable after it. */
  lemma OperandMissing(t: Tree, ws: string, op: char, more: string, rest: string, params: Params)
    requires WellFormed(t) && Spaces(ws) && IsSumOp(op) && Spaces(more) && Meaning(t, params).Ok?
    requires rest != "" ==> StartsNothing(rest[0])
    ensures Eval(TextOf(t) + ws + [op] + more + rest, params) == Err(if rest == "" then Incomplete else BadCharacter)
  {
    var s := TextOf(t) + ws + [op] + more + rest;
    var q := |TextOf(t)|;
    var k := q + |ws|;
    var e := k + 1 + |more|;
    WhereTheyAre(TextOf(t), ws, op, more, rest);
    FirstCharacters(ws, op, more, rest);
    assert e < |s| ==> StartsNothing(s[e]);
    hide *;
    SkipTo(s, q, k);
    SkipTo(s, k + 1, e);
    ReadyAt(t, s, 0, q, k);
    OperandMissingAt(t, s, q, k, e, params);
  }

  lemma FirstCharacters(ws: string, op: char, more: string, rest: string)
    requires Spaces(ws) && IsSumOp(op) && Spaces(more) && (rest != "" ==> StartsNothing(rest[0]))
    ensures !IsSpace(op) && !IsProductOp(op) && !InName(if ws == "" then op else ws[0])
    ensures rest != "" ==> !IsSpace(rest[0])
  {
  }

  lemma OperandMissingAt(t: Tree, s: string, q: nat, k: nat, e: nat, params: Params)
    requires WellFormed(t) && Meaning(t, params).Ok? && Stands(t, s, 0, q) && q <= k < e <= |s| && NoProductNext(s, q)
    requires Skip(s, q) == k && IsSumOp(s[k]) && Skip(s, k + 1) == e && (e < |s| ==> StartsNothing(s[e]))
    ensures Eval(s, params) == Err(if e == |s| then Incomplete else BadCharacter)
  {
    hide Sum, SumTail, Product, Skip, TextOf, Meaning, Stands, NoProductNext, WellFormed;
    SumReads(t, s, 0, q, params);
    SumTailAt(s, Meaning(t, params).value, q, k, params);
    OperandFails(s, k + 1, e, params);
  }

  lemma ReadyAt(t: Tree, s: string, p: nat, q: nat, k: nat)
    requires p <= q <= k <= |s| && s[p..q] == TextOf(t) && Skip(s, q) == k
    requires (q < |s| ==> !InName(s[q])) && (k < |s| ==> !IsProductOp(s[k]))
    ensures Stands(t, s, p, q) && NoProductNext(s, q)
  {
    hide Skip, TextOf;
  }

  lemma WhereTheyAre(text: string, ws: string, op: char, more: string, rest: string)
    ensures var s := text + ws + [op] + more + rest;
      var q := |text|;
      var k := q + |ws|;
      var e := k + 1 + |more|;
      && k < |s| && e <= |s| && s[0..q] == text && s[q..k] == ws && s[k] == op && s[k + 1..e] == more
      && (s[q] == if ws == "" then op else ws[0]) && (e < |s| ==> s[e] == rest[0]) && (e == |s| <==> rest == "")
  {
  }

  /** An opened parenthesis that is not closed where its sentence ends. */
  lemma ParenMissing(ws: string, t: Tree, close: string, rest: string, params: Params)
    requires Spaces(ws) && WellFormed(t) && Spaces(close) && Meaning(t, params).Ok?
    requires rest != "" ==> rest[0] != ')' && ContinuesNothing(rest[0]) && (close == "" ==> !InName(rest[0]))
    ensures Eval(ws + "(" + TextOf(t) + close + rest, params) == Err(MissingParen)
  {
    var s := ws + "(" + TextOf(t) + close + rest;
    var p := |ws|;
    var q := p + 1 + |TextOf(t)|;
    var e := q + |close|;
    WhereParenIs(ws, TextOf(t), close, rest);
    SkipTo(s, 0, p);
    SkipTo(s, p, p);
    SkipTo(s, q, e);
    SkipTo(s, e, e);
    ReadyAt(t, s, p + 1, q, e);
    assert e < |s| ==> s[e] != ')' && !IsSumOp(s[e]);
    hide *;
    ParenMissingAt(t, s, p, q, e, params);
  }

  lemma ParenMissingAt(t: Tree, s: string, p: nat, q: nat, e: nat, params: Params)
    requires WellFormed(t) && Meaning(t, params).Ok? && p < q <= e <= |s| && Stands(t, s, p + 1, q) && NoProductNext(s, q)
    requires Skip(s, 0) == p && Skip(s, p) == p && s[p] == '(' && Skip(s, q) == e && Skip(s, e) == e
    requires e < |s| ==> s[e] != ')' && !IsSumOp(s[e])
    ensures Eval(s, params) == Err(MissingParen)
  {
    hide Sum, SumTail, Skip, TextOf, Meaning, Stands, NoProductNext, WellFormed, Eval;
    SumReads(t, s, p + 1, q, params);
    SumTailStops(s, q, e, params);
    ParenFails(s, p, e, Meaning(t, params).value, params);
  }

  lemma WhereParenIs(ws: string, text: string, close: string, rest: string)
    ensures var s := ws + "(" + text + close + rest;
      var p := |ws|;
      var q := p + 1 + |text|;
      var e := q + |close|;
      && q <= e <= |s| && s[0..p] == ws && s[p] == '(' && s[p + 1..q] == text && s[q..e] == close && s[p..p] == "" && s[e..e] == ""
      && (e < |s| <==> rest != "") && (e < |s| ==> s[e] == rest[0])
      && (q < |s| ==> s[q] == if close == "" then rest[0] else close[0])
  {
  }

  lemma ParenFails(s: string, p: nat, e: nat, v: Value, params: Params)
    requires p < |s| && Skip(s, 0) == p && Skip(s, p) == p && s[p] == '(' && Sum(s, p + 1, params) == Good(v, e)
    requires e <= |s| && Skip(s, e) == e && (e < |s| ==> s[e] != ')')
    ensures Eval(s, params) == Err(MissingParen)
  {
    PrimaryOpens(s, p, e, v, params);
    FactorIsPrimary(s, p, params);
    FactorFails(s, MissingParen, params);
    hide Skip, Sum;
  }

  lemma PrimaryOpens(s: string, p: nat, e: nat, v: Value, params: Params)
    requires p < |s| && Skip(s, p) == p && s[p] == '(' && Sum(s, p + 1, params) == Good(v, e)
    requires e <= |s| && Skip(s, e) == e && (e < |s| ==> s[e] != ')')
    ensures Primary(s, p, params) == Bad(MissingParen)
  {
    hide Skip, Sum;
  }

  lemma FactorIsPrimary(s: string, p: nat, params: Params)
    requires p < |s| && Skip(s, 0) == p && s[p] == '('
    ensures Factor(s, 0, params) == Primary(s, p, params)
  {
    hide Skip, Primary;
  }

  lemma FactorFails(s: string, x: Error, params: Params)
    requires Factor(s, 0, params) == Bad(x)
    ensures Sum(s, 0, params) == Bad(x)
  {
    hide Skip, Factor, SumTail, ProductTail;
  }

  // ---- Holes ----

  /** White space inside the braces does not matter. */
  lemma {:induction false} TrimSpaces(a: string, s: string, b: string)
    requires Spaces(a) && Spaces(b) && (s != "" ==> !IsSpace(s[0]) && !IsSpace(s[|s| - 1]))
    ensures Trim(a + s + b) == s
    decreases |a| + |b|
  {
    var t := a + s + b;
    if a != "" {
      assert t[1..] == a[1..] + s + b;
      TrimSpaces(a[1..], s, b);
    } else if b != "" {
      if s == "" {
        assert t[1..] == a + s + b[1..];
        TrimSpaces(a, s, b[1..]);
      } else {
        assert t[0] == s[0] && t[..|t| - 1] == a + s + b[..|b| - 1];
        TrimSpaces(a, s, b[..|b| - 1]);
      }
    } else {
      assert t == s;
    }
  }

  lemma SpacesHaveNoBrace(ws: string)
    requires Spaces(ws)
    ensures '}' !in ws
  {
  }

  lemma SpacedHole(before: string, a: string, s: string, b: string, after: string, params: Params)
    requires forall k :: 0 <= k < |before| ==> !OpensAt(before, k)
    requires Spaces(a) && Spaces(b) && '}' !in s && (s != "" ==> !IsSpace(s[0]) && !IsSpace(s[|s| - 1]))
    ensures Resolve(before + "${" + (a + s + b) + "}" + after, params) == Resolve(before + "${" + s + "}" + after, params)
  {
    TrimSpaces(a, s, b);
    TrimSpaces("", s, "");
    assert "" + s + "" == s;
    SpacesHaveNoBrace(a);
    SpacesHaveNoBrace(b);
    hide Resolve, Hole, Trim;
    ResolveHole(before, a + s + b, after, params);
    ResolveHole(before, s, after, params);
  }

  /** A hole whose whole text is the name of a parameter gives the parameter as it is, whatever characters the name has. */
  lemma NamedHoleResolves(before: string, name: string, after: string, params: Params)
    requires (forall k :: 0 <= k < |before| ==> !OpensAt(before, k)) && (forall k :: 0 <= k < |after| ==> !OpensAt(after, k))
    requires name in params && name != "" && '}' !in name && !IsSpace(name[0]) && !IsSpace(name[|name| - 1])
    ensures Resolve(before + "${" + name + "}" + after, params) == Ok(before + params[name] + after)
  {
    TrimSpaces("", name, "");
    assert "" + name + "" == name;
    assert Hole(name, params) == Ok(params[name]);
    hide Resolve, Trim, Hole;
    ResolveHole(before, name, after, params);
    ResolveFixed(after, params);
  }

  /** A hole with nothing but white space in it is refused. */
  lemma EmptyHole(before: string, ws: string, after: string, params: Params)
    requires (forall k :: 0 <= k < |before| ==> !OpensAt(before, k)) && Spaces(ws)
    ensures Resolve(before + "${" + ws + "}" + after, params) == Err(Empty)
  {
    SpacesHaveNoBrace(ws);
    TrimSpaces(ws, "", "");
    assert ws + "" + "" == ws;
    hide Resolve, Trim;
    ResolveHole(before, ws, after, params);
  }

  /** A hole that is never closed is refused, whatever is in it. */
  lemma UnclosedHole(before: string, rest: string, params: Params)
    requires (forall k :: 0 <= k < |before| ==> !OpensAt(before, k)) && '}' !in rest
    ensures Resolve(before + "${" + rest, params) == Err(Unclosed)
  {
    var text := before + "${" + rest;
    forall k | 0 <= k < |before| ensures !OpensAt(text, k) {
      assert !OpensAt(before, k);
    }
    FindOpenAt(text, 0, |before|);
    assert forall k :: |before| + 2 <= k < |text| ==> text[k] == rest[k - |before| - 2];
  }
}
