/**
 Adapter templates: one pass over the template text, every well-formed token
 replaced by its value verbatim, anything left that looks like a delimiter refused.
 */
module Template {
  import opened Base
  import opened Reachability

  // ---- the token pattern: two braces, no brace, two braces ---------------

  /** `t` stands at `[i, j)` in `s`. */
  ghost predicate At(s: string, i: nat, j: nat, t: string) { i < j <= |s| && s[i..j] == t }

  ghost predicate Occurs(s: string, t: string) { exists i: nat, j: nat :: At(s, i, j, t) }

  predicate Brace(c: char) { c == '{' || c == '}' }

  /** The whole of `t` matches the token pattern. */
  predicate IsToken(t: string)
  {
    && |t| >= 4 && t[0] == '{' && t[1] == '{' && t[|t| - 1] == '}' && t[|t| - 2] == '}'
    && forall k | 2 <= k < |t| - 2 :: !Brace(t[k])
  }

  /** How far the run without braces extends from `k`. */
  function RunEnd(s: string, k: nat): (e: nat)
    requires k <= |s|
    ensures k <= e <= |s| && (forall i | k <= i < e :: !Brace(s[i])) && (e < |s| ==> Brace(s[e]))
    decreases |s| - k
  {
    if k == |s| || Brace(s[k]) then k else RunEnd(s, k + 1)
  }

  /** The length of the token `s` starts with, if it starts with one. */
  function TokenLength(s: string): (n: Option<nat>)
    ensures n.Some? ==> n.value <= |s| && IsToken(s[..n.value])
  {
    if |s| < 4 || s[0] != '{' || s[1] != '{' then None
    else
      var e := RunEnd(s, 2);
      if e + 2 <= |s| && s[e] == '}' && s[e + 1] == '}' then
        assert forall k | 2 <= k < e :: s[..e + 2][k] == s[k];
        Some(e + 2)
      else None
  }

  /** A string starts with at most one token, and the scan finds it. */
  lemma TokenFound(s: string, n: nat)
    requires n <= |s| && IsToken(s[..n])
    ensures TokenLength(s) == Some(n)
  {
    var t := s[..n];
    assert forall k | 0 <= k < n :: t[k] == s[k];
    var e := RunEnd(s, 2);
    assert Brace(s[n - 2]);
    assert forall k | 2 <= k < n - 2 :: !Brace(s[k]);
  }

  datatype Piece = Text(c: char) | Token(t: string)

  /** The left-to-right, non-overlapping scan. */
  function Pieces(s: string): seq<Piece>
  {
    if s == [] then []
    else match TokenLength(s)
    case Some(n) => [Token(s[..n])] + Pieces(s[n..])
    case None => [Text(s[0])] + Pieces(s[1..])
  }

  function FillOne(p: Piece, values: map<string, string>): string
  {
    match p
    case Text(c) => [c]
    case Token(t) => if t in values then values[t] else t
  }

  /** The pieces as text, tokens replaced by their values. */
  function Fill(ps: seq<Piece>, values: map<string, string>): string
  {
    if ps == [] then [] else FillOne(ps[0], values) + Fill(ps[1..], values)
  }

  function LiteralOf(p: Piece): string { if p.Text? then [p.c] else [] }

  /** What is left once every token is removed. */
  function Literals(ps: seq<Piece>): string
  {
    if ps == [] then [] else LiteralOf(ps[0]) + Literals(ps[1..])
  }

  function Tokens(ps: seq<Piece>): set<string>
  {
    set p | p in ps && p.Token? :: p.t
  }

  /** Two braces of a kind side by side. */
  predicate HasDelimiter(s: string)
  {
    exists i | 0 <= i < |s| - 1 :: s[i] == s[i + 1] && Brace(s[i])
  }

  datatype TemplateError = Unresolved(placeholders: seq<string>, malformed: bool)

  /** `_render_template`. */
  function Render(template: string, values: map<string, string>): Result<string, TemplateError>
  {
    var ps := Pieces(template);
    var unresolved := Tokens(ps) - values.Keys;
    if unresolved != {} || HasDelimiter(Literals(ps)) then
      Err(Unresolved(SortedStrings(unresolved), HasDelimiter(Literals(ps))))
    else Ok(Fill(ps, values))
  }

  // ---- tokens never overlap ----------------------------------------------

  /** A token starting inside another token would have to start with a brace where there is none. */
  lemma NoOverlap(s: string, n: nat, i: nat, j: nat)
    requires n <= |s| && IsToken(s[..n]) && 0 < i < j <= |s| && IsToken(s[i..j])
    ensures n <= i
  {
    assert forall k | 0 <= k < n :: s[..n][k] == s[k];
    assert forall k | 2 <= k < n - 2 :: !Brace(s[k]);
    assert s[n - 2] == '}' && s[n - 1] == '}';
    assert s[i] == s[i..j][0] && s[i + 1] == s[i..j][1];
  }

  lemma TokenOfPrefix(s: string, i: nat)
    requires i <= |s|
    ensures TokenLength(s[..i]).Some? ==> TokenLength(s) == TokenLength(s[..i])
    ensures TokenLength(s).Some? && TokenLength(s).value <= i ==> TokenLength(s[..i]) == TokenLength(s)
  {
    if TokenLength(s[..i]).Some? {
      var n := TokenLength(s[..i]).value;
      assert s[..i][..n] == s[..n];
      TokenFound(s, n);
    }
    if TokenLength(s).Some? && TokenLength(s).value <= i {
      var n := TokenLength(s).value;
      assert s[..i][..n] == s[..n];
      TokenFound(s[..i], n);
    }
  }

  /**
   The scan is a faithful splice: at any occurrence of the token pattern the
   template is cut there, and both sides are scanned as if they stood alone.
   */
  lemma {:induction false} CutsAtToken(s: string, i: nat, j: nat, t: string)
    requires At(s, i, j, t) && IsToken(t)
    ensures Pieces(s) == Pieces(s[..i]) + [Token(t)] + Pieces(s[j..])
    decreases |s|
  {
    hide IsToken, Pieces, StepPiece, StepLength;
    if i == 0 {
      CutsAtHead(s, j, t);
    } else {
      var n := StepLength(s);
      StepBefore(s, i, j);
      Shifted(s, n, i, j, t);
      CutsAtToken(s[n..], i - n, j - n, t);
      StepPieces(s, i);
      Joined(StepPiece(s), Pieces(s[..i][n..]), t, Pieces(s[j..]));
    }
  }

  lemma CutsAtHead(s: string, j: nat, t: string)
    requires At(s, 0, j, t) && IsToken(t)
    ensures Pieces(s) == Pieces(s[..0]) + [Token(t)] + Pieces(s[j..])
  {
    assert s[0..j] == s[..j] && s[..0] == [];
    TokenFound(s, j);
    hide IsToken, TokenLength;
    PiecesStep(s);
    assert Pieces([]) == [];
  }

  lemma Shifted(s: string, n: nat, i: nat, j: nat, t: string)
    requires n <= i && At(s, i, j, t)
    ensures At(s[n..], i - n, j - n, t) && s[n..][j - n..] == s[j..] && s[n..][..i - n] == s[..i][n..]
  {
    assert s[n..][i - n..j - n] == s[i..j];
  }

  lemma Joined(p: Piece, a: seq<Piece>, t: string, b: seq<Piece>)
    ensures [p] + (a + [Token(t)] + b) == ([p] + a) + [Token(t)] + b
  {
  }

  /** How far one scan step moves. */
  function StepLength(s: string): (n: nat)
    requires s != []
    ensures 0 < n <= |s|
  {
    if TokenLength(s).Some? then TokenLength(s).value else 1
  }

  function StepPiece(s: string): Piece
    requires s != []
  {
    if TokenLength(s).Some? then Token(s[..TokenLength(s).value]) else Text(s[0])
  }

  lemma PiecesStep(s: string)
    requires s != []
    ensures Pieces(s) == [StepPiece(s)] + Pieces(s[StepLength(s)..])
  {
  }

  lemma StepBefore(s: string, i: nat, j: nat)
    requires 0 < i < j <= |s| && IsToken(s[i..j])
    ensures StepLength(s) <= i
  {
    if TokenLength(s).Some? { NoOverlap(s, TokenLength(s).value, i, j); }
  }

  lemma StepPieces(s: string, i: nat)
    requires 0 < i <= |s| && StepLength(s) <= i
    ensures Pieces(s) == [StepPiece(s)] + Pieces(s[StepLength(s)..])
    ensures Pieces(s[..i]) == [StepPiece(s)] + Pieces(s[..i][StepLength(s)..])
  {
    PiecesStep(s);
    TokenOfPrefix(s, i);
    PiecesStep(s[..i]);
    if TokenLength(s).Some? { assert s[..i][..TokenLength(s).value] == s[..TokenLength(s).value]; }
  }

  // ---- what the pieces are -----------------------------------------------

  lemma {:induction false} FillConcat(a: seq<Piece>, b: seq<Piece>, values: map<string, string>)
    ensures Fill(a + b, values) == Fill(a, values) + Fill(b, values)
    ensures Literals(a + b) == Literals(a) + Literals(b)
  {
    if a == [] {
      assert a + b == b;
    } else {
      hide Fill, Literals, FillOne, LiteralOf;
      var p, rest := a[0], a[1..];
      assert a == [p] + rest;
      Assoc([p], rest, b);
      FillConcat(rest, b, values);
      FillStep(p, rest, values);
      FillStep(p, rest + b, values);
      Assoc(FillOne(p, values), Fill(rest, values), Fill(b, values));
      Assoc(LiteralOf(p), Literals(rest), Literals(b));
    }
  }

  lemma Assoc<T>(x: seq<T>, y: seq<T>, z: seq<T>)
    ensures (x + y) + z == x + (y + z)
  {
  }

  lemma FillStep(p: Piece, rest: seq<Piece>, values: map<string, string>)
    ensures Fill([p] + rest, values) == FillOne(p, values) + Fill(rest, values)
    ensures Literals([p] + rest) == LiteralOf(p) + Literals(rest)
  {
    assert ([p] + rest)[1..] == rest;
  }

  lemma OccursLater(s: string, n: nat, t: string)
    requires n <= |s| && Occurs(s[n..], t)
    ensures Occurs(s, t)
  {
    var i: nat, j: nat :| At(s[n..], i, j, t);
    assert s[i + n..j + n] == s[n..][i..j];
    assert At(s, i + n, j + n, t);
  }

  lemma TokensStep(p: Piece, rest: seq<Piece>)
    ensures Tokens([p] + rest) == Tokens(rest) + (if p.Token? then {p.t} else {})
  {
  }

  /** Every token found matches the pattern and occurs in the template. */
  lemma {:induction false} TokensOccur(s: string, t: string)
    requires t in Tokens(Pieces(s))
    ensures IsToken(t) && Occurs(s, t)
    decreases |s|
  {
    hide Tokens, Occurs, IsToken;
    assert s != [] by { EmptyHasNone(t); }
    var n := StepLength(s);
    PiecesStep(s);
    TokensStep(StepPiece(s), Pieces(s[n..]));
    if StepPiece(s) == Token(t) {
      HeadOccurs(s);
    } else {
      TokensOccur(s[n..], t);
      OccursLater(s, n, t);
    }
  }

  lemma EmptyHasNone(t: string)
    ensures t !in Tokens(Pieces(""))
  {
  }

  lemma HeadOccurs(s: string)
    requires s != [] && StepPiece(s).Token?
    ensures IsToken(StepPiece(s).t) && Occurs(s, StepPiece(s).t)
  {
    var n := TokenLength(s).value;
    assert s[0..n] == s[..n];
    assert At(s, 0, n, s[..n]);
  }

  /** The tokens found are exactly the occurrences of the pattern, wherever they stand. */
  lemma TokensAreAllOccurrences(s: string, t: string)
    ensures t in Tokens(Pieces(s)) <==> IsToken(t) && Occurs(s, t)
  {
    hide IsToken;
    if t in Tokens(Pieces(s)) { TokensOccur(s, t); }
    if IsToken(t) && Occurs(s, t) {
      var i: nat, j: nat :| At(s, i, j, t);
      CutsAtToken(s, i, j, t);
      assert Token(t) in Pieces(s);
    }
  }

  // ---- rendering ---------------------------------------------------------

  /** A rendered token stands verbatim between the renderings of what is around it; values are never expanded. */
  lemma RendersAroundToken(s: string, i: nat, j: nat, t: string, values: map<string, string>)
    requires At(s, i, j, t) && IsToken(t) && t in values
    ensures Fill(Pieces(s), values) == Fill(Pieces(s[..i]), values) + values[t] + Fill(Pieces(s[j..]), values)
    ensures Literals(Pieces(s)) == Literals(Pieces(s[..i])) + Literals(Pieces(s[j..]))
  {
    hide Pieces, Fill, Literals, IsToken;
    CutsAtToken(s, i, j, t);
    FillAround(Pieces(s[..i]), t, Pieces(s[j..]), values);
  }

  lemma FillAround(left: seq<Piece>, t: string, right: seq<Piece>, values: map<string, string>)
    requires t in values
    ensures Fill(left + [Token(t)] + right, values) == Fill(left, values) + values[t] + Fill(right, values)
    ensures Literals(left + [Token(t)] + right) == Literals(left) + Literals(right)
  {
    hide Fill, Literals;
    FillConcat(left + [Token(t)], right, values);
    FillConcat(left, [Token(t)], values);
    FillToken(t, values);
    assert Literals(left) + [] == Literals(left);
  }

  lemma FillToken(t: string, values: map<string, string>)
    requires t in values
    ensures Fill([Token(t)], values) == values[t] && Literals([Token(t)]) == []
  {
    assert [Token(t)][1..] == [];
  }

  lemma StepText(s: string)
    requires s != []
    ensures s == (match StepPiece(s) case Text(c) => [c] case Token(t) => t) + s[StepLength(s)..]
  {
  }

  /** With every placeholder mapped to itself, rendering returns the template. */
  lemma {:induction false} IdentityRendering(s: string, values: map<string, string>)
    requires forall t | t in Tokens(Pieces(s)) && t in values :: values[t] == t
    ensures Fill(Pieces(s), values) == s
    decreases |s|
  {
    if s != [] {
      hide Pieces, Tokens, Fill;
      var n := StepLength(s);
      var rest := Pieces(s[n..]);
      PiecesStep(s);
      TokensStep(StepPiece(s), rest);
      IdentityRendering(s[n..], values);
      FillStep(StepPiece(s), rest, values);
      StepText(s);
    }
  }

  /** Every occurrence of the pattern has a value. */
  ghost predicate AllKnown(s: string, values: map<string, string>)
  {
    forall t | IsToken(t) && Occurs(s, t) :: t in values
  }

  lemma NoneUnresolved(s: string, values: map<string, string>)
    ensures Tokens(Pieces(s)) - values.Keys == {} <==> AllKnown(s, values)
    ensures forall t :: t in Tokens(Pieces(s)) - values.Keys <==> IsToken(t) && Occurs(s, t) && t !in values
  {
    hide IsToken, Occurs, Pieces, Tokens;
    var found := Tokens(Pieces(s));
    forall t ensures t in found <==> IsToken(t) && Occurs(s, t) { TokensAreAllOccurrences(s, t); }
    if found - values.Keys == {} {
      forall t | t in found ensures t in values { assert t !in found - values.Keys; }
    }
  }

  /**
   A template is accepted exactly when every occurrence of the pattern has a value
   and no delimiter is left without them; an error names exactly the unknown tokens.
   */
  lemma AcceptedIff(template: string, values: map<string, string>)
    ensures Render(template, values).Ok? <==> AllKnown(template, values) && !HasDelimiter(Literals(Pieces(template)))
    ensures Render(template, values).Err? ==> forall t ::
      t in Elems(Render(template, values).error.placeholders) <==> IsToken(t) && Occurs(template, t) && t !in values
    ensures Render(template, values).Err? ==>
      (Render(template, values).error.malformed <==> HasDelimiter(Literals(Pieces(template))))
  {
    hide IsToken, Occurs, Pieces, Tokens, AllKnown, HasDelimiter;
    NoneUnresolved(template, values);
    SortedStringsSorted(Tokens(Pieces(template)) - values.Keys);
  }

  lemma PartOccurs(s: string, i: nat, j: nat, t: string)
    requires i <= j <= |s|
    ensures Occurs(s[..i], t) ==> Occurs(s, t)
    ensures Occurs(s[j..], t) ==> Occurs(s, t)
  {
    if Occurs(s[..i], t) {
      var a: nat, b: nat :| At(s[..i], a, b, t);
      assert s[..i][a..b] == s[a..b];
      assert At(s, a, b, t);
    }
    if Occurs(s[j..], t) { OccursLater(s, j, t); }
  }

  lemma PartsKnown(s: string, i: nat, j: nat, values: map<string, string>)
    requires i <= j <= |s| && AllKnown(s, values)
    ensures AllKnown(s[..i], values) && AllKnown(s[j..], values)
  {
    forall t ensures Occurs(s[..i], t) ==> Occurs(s, t)
             ensures Occurs(s[j..], t) ==> Occurs(s, t) { PartOccurs(s, i, j, t); }
  }

  /**
   Rendering is a single splice: an accepted template cut at any token is two
   accepted templates, each with clean literals, and the output is their outputs
   with the token's value, verbatim, between them.
   */
  lemma RenderingSplices(s: string, i: nat, j: nat, t: string, values: map<string, string>)
    requires Render(s, values).Ok? && At(s, i, j, t) && IsToken(t)
    ensures t in values && Render(s[..i], values).Ok? && Render(s[j..], values).Ok?
    ensures Render(s, values).value == Render(s[..i], values).value + values[t] + Render(s[j..], values).value
    ensures !HasDelimiter(Literals(Pieces(s[..i]))) && !HasDelimiter(Literals(Pieces(s[j..])))
  {
    hide IsToken, Pieces, Tokens, HasDelimiter;
    AcceptedIff(s, values);
    assert Occurs(s, t);
    RendersAroundToken(s, i, j, t, values);
    PartsAreClean(Literals(Pieces(s[..i])), Literals(Pieces(s[j..])));
    PartsKnown(s, i, j, values);
    AcceptedIff(s[..i], values);
    AcceptedIff(s[j..], values);
  }

  lemma {:induction false} NoTokenAllText(s: string)
    requires forall t | IsToken(t) :: !Occurs(s, t)
    ensures Literals(Pieces(s)) == s && forall p | p in Pieces(s) :: p.Text?
    decreases |s|
  {
    if s != [] {
      hide IsToken, Occurs;
      if TokenLength(s).Some? { HeadOccurs(s); }
      forall t | IsToken(t) ensures !Occurs(s[1..], t) {
        if Occurs(s[1..], t) { OccursLater(s, 1, t); }
      }
      NoTokenAllText(s[1..]);
      assert Pieces(s) == [Text(s[0])] + Pieces(s[1..]);
      assert Pieces(s)[1..] == Pieces(s[1..]);
    }
  }

  lemma {:induction false} TextFillsAsIs(ps: seq<Piece>, values: map<string, string>)
    requires forall p | p in ps :: p.Text?
    ensures Fill(ps, values) == Literals(ps)
  {
    if ps != [] {
      assert ps[0] in ps && forall p | p in ps[1..] :: p in ps;
      TextFillsAsIs(ps[1..], values);
    }
  }

  lemma DelimiterIff(s: string)
    ensures HasDelimiter(s) <==> Occurs(s, "{{") || Occurs(s, "}}")
  {
    if i :| 0 <= i < |s| - 1 && s[i] == s[i + 1] && Brace(s[i]) {
      assert s[i..i + 2] == [s[i], s[i + 1]];
      assert At(s, i, i + 2, if s[i] == '{' then "{{" else "}}");
    }
    forall t | t == "{{" || t == "}}" ensures Occurs(s, t) ==> HasDelimiter(s) {
      if i: nat, j: nat :| At(s, i, j, t) {
        assert s[i..j][0] == s[i] && s[i..j][1] == s[i + 1];
      }
    }
  }

  /** A template without tokens is accepted when it has no delimiter, and then unchanged. */
  lemma PlainTemplate(s: string, values: map<string, string>)
    requires forall t | IsToken(t) :: !Occurs(s, t)
    ensures Render(s, values).Ok? <==> !Occurs(s, "{{") && !Occurs(s, "}}")
    ensures Render(s, values).Ok? ==> Render(s, values).value == s
  {
    DelimiterIff(s);
    hide IsToken, Occurs, HasDelimiter, Pieces;
    NoTokenAllText(s);
    AcceptedIff(s, values);
    TextFillsAsIs(Pieces(s), values);
  }

  lemma PartsAreClean(a: string, b: string)
    requires !HasDelimiter(a + b)
    ensures !HasDelimiter(a) && !HasDelimiter(b)
  {
    forall i | 0 <= i < |a| - 1 ensures !(a[i] == a[i + 1] && Brace(a[i])) {
      assert (a + b)[i] == a[i] && (a + b)[i + 1] == a[i + 1];
    }
    forall i | 0 <= i < |b| - 1 ensures !(b[i] == b[i + 1] && Brace(b[i])) {
      assert (a + b)[|a| + i] == b[i] && (a + b)[|a| + i + 1] == b[i + 1];
    }
  }
}
