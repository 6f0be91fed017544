// Segment patterns of keepEngine: the rewriting of a pattern to a regular expression
// (SingleSegmentNode::from_pattern), the meaning of that expression, and the glob language it stands for.
module Glob {
  import opened Wrappers

  // The placeholder "@KEEPENGINEGLOBSTAR@", and the same without its last character.
  const WORD := "KEEPENGINEGLOBSTAR"
  const STEM := ['@'] + WORD
  const MARKER := ['@'] + (WORD + "@")
  const RUN := "[^/]*"
  const RUN1 := "[^/]+"

  // ---------------------------------------------------------------- the rewriting

  // The characters that regex::escape puts a backslash before.
  predicate IsMeta(c: char) {
    c == '\\' || c == '.' || c == '+' || c == '*' || c == '?' || c == '(' || c == ')' || c == '|' || c == '[' ||
    c == ']' || c == '{' || c == '}' || c == '^' || c == '$' || c == '#' || c == '&' || c == '-' || c == '~'
  }

  function Escape(s: string): string {
    if s == "" then "" else (if IsMeta(s[0]) then ['\\', s[0]] else [s[0]]) + Escape(s[1..])
  }

  // str::replace: leftmost occurrences first, not overlapping.
  function Replace(s: string, from: string, to: string): string
    requires from != ""
    decreases |s|
  {
    if s == "" then ""
    else if from <= s then to + Replace(s[|from|..], from, to)
    else [s[0]] + Replace(s[1..], from, to)
  }

  function Body(pattern: string): string {
    if pattern == "*" then RUN1 else Replace(Escape(Replace(pattern, "*", MARKER)), MARKER, RUN)
  }

  function RegexText(pattern: string): string {
    "^" + Body(pattern) + "$"
  }

  // The translation the rewriting is meant to be: one character at a time.
  function Charwise(p: string): string {
    if p == "" then ""
    else (if p[0] == '*' then RUN else if IsMeta(p[0]) then ['\\', p[0]] else [p[0]]) + Charwise(p[1..])
  }

  // Where the rewriting goes wrong: a literal '@' that, together with what follows it, spells the marker.
  // The closing '@' may come from the pattern or from the marker put in for a star.
  predicate ClashAt(p: string) {
    STEM <= p && |p| > |STEM| && (p[|STEM|] == '@' || p[|STEM|] == '*')
  }

  predicate HasClash(p: string) {
    p != "" && (ClashAt(p) || HasClash(p[1..]))
  }

  // ---------------------------------------------------------------- the fragment of regular expressions used

  datatype Token = Lit(c: char) | AnyRun | AnyRun1

  function TokensOf(text: string): (r: Option<seq<Token>>)
    decreases |text|
  {
    if text == "" then Some([])
    else if RUN <= text then Prepend(AnyRun, TokensOf(text[|RUN|..]))
    else if RUN1 <= text then Prepend(AnyRun1, TokensOf(text[|RUN1|..]))
    else if text[0] == '\\' then
      if |text| > 1 then Prepend(Lit(text[1]), TokensOf(text[2..])) else None
    else if IsMeta(text[0]) then None
    else Prepend(Lit(text[0]), TokensOf(text[1..]))
  }

  function Prepend(t: Token, ts: Option<seq<Token>>): Option<seq<Token>> {
    if ts.Some? then Some([t] + ts.value) else None
  }

  predicate NoSlash(s: string) {
    forall i :: 0 <= i < |s| ==> s[i] != '/'
  }

  // Whole-string acceptance, as the anchors ask for.
  predicate Accepts(ts: seq<Token>, s: string)
    decreases |ts|
  {
    if ts == [] then s == ""
    else match ts[0]
      case Lit(c) => s != "" && s[0] == c && Accepts(ts[1..], s[1..])
      case AnyRun => exists k :: 0 <= k <= |s| && NoSlash(s[..k]) && Accepts(ts[1..], s[k..])
      case AnyRun1 => exists k :: 1 <= k <= |s| && NoSlash(s[..k]) && Accepts(ts[1..], s[k..])
  }

  // regex_pattern.is_match(segment)
  predicate SegMatches(pattern: string, segment: string) {
    var text := RegexText(pattern);
    var tokens := TokensOf(text[1..|text| - 1]);
    tokens.Some? && Accepts(tokens.value, segment)
  }

  // ---------------------------------------------------------------- the glob language

  // A star stands for any run of characters other than '/', the empty one included.
  predicate StarMatch(p: string, s: string)
    decreases |p| + |s|
  {
    if p == "" then s == ""
    else if p[0] == '*' then StarMatch(p[1..], s) || (s != "" && s[0] != '/' && StarMatch(p, s[1..]))
    else s != "" && s[0] == p[0] && StarMatch(p[1..], s[1..])
  }

  // A star alone needs at least one character.
  predicate GlobMatch(p: string, s: string) {
    StarMatch(p, s) && (p == "*" ==> s != "")
  }

  // ---------------------------------------------------------------- the rewriting is the translation

  // The text between the two replacements.
  function Marked(p: string): string {
    if p == "" then ""
    else (if p[0] == '*' then MARKER else if IsMeta(p[0]) then ['\\', p[0]] else [p[0]]) + Marked(p[1..])
  }

  lemma {:induction false} EscapeConcat(a: string, b: string)
    ensures Escape(a + b) == Escape(a) + Escape(b)
  {
    if a == "" {
      assert a + b == b;
    } else {
      assert (a + b)[1..] == a[1..] + b;
      EscapeConcat(a[1..], b);
    }
  }

  lemma {:induction false} EscapePlain(s: string)
    requires forall i :: 0 <= i < |s| ==> !IsMeta(s[i])
    ensures Escape(s) == s
  {
    if s != "" { EscapePlain(s[1..]); }
  }

  // The placeholder and its word are made of ordinary characters.
  lemma MarkerIsOrdinary()
    ensures forall i :: 0 <= i < |MARKER| ==> !IsMeta(MARKER[i])
    ensures forall i :: 0 <= i < |WORD| ==> WORD[i] != '@' && !IsMeta(WORD[i])
  {
    assert forall i :: 0 <= i < |WORD| ==> 'A' <= WORD[i] <= 'Z';
    assert forall i :: 0 <= i < |MARKER| ==> '@' <= MARKER[i] <= 'Z';
    assert forall c :: '@' <= c <= 'Z' ==> !IsMeta(c);
  }

  lemma EscapedPlain(m: string, rest: string)
    requires forall i :: 0 <= i < |m| ==> !IsMeta(m[i])
    ensures Escape(m + rest) == m + Escape(rest)
  {
    EscapePlain(m);
    EscapeConcat(m, rest);
  }

  lemma EscapedChar(c: char, rest: string)
    ensures Escape([c] + rest) == (if IsMeta(c) then ['\\', c] else [c]) + Escape(rest)
  {
    assert ([c] + rest)[1..] == rest;
  }

  lemma {:induction false} EscapedIsMarked(p: string)
    ensures Escape(Replace(p, "*", MARKER)) == Marked(p)
  {
    MarkerIsOrdinary();
    if p != "" {
      EscapedIsMarked(p[1..]);
      var rest := Replace(p[1..], "*", MARKER);
      assert "*" <= p <==> p[0] == '*';
      if p[0] == '*' { EscapedPlain(MARKER, rest); } else { EscapedChar(p[0], rest); }
    }
  }

  // A plain word followed by '@' can only be spelt by literals followed by '@' or by a star.
  lemma {:induction false} MarkedSpells(w: string, p: string)
    requires forall i :: 0 <= i < |w| ==> w[i] != '@' && !IsMeta(w[i])
    ensures w + "@" <= Marked(p) <==> w <= p && |p| > |w| && (p[|w|] == '@' || p[|w|] == '*')
  {
    if p == "" {
      assert Marked(p) == "";
    } else if w == "" {
      var m := Marked(p);
      assert m[0] == if p[0] == '*' then MARKER[0] else if IsMeta(p[0]) then '\\' else p[0];
      assert w + "@" == "@" && ("@" <= m <==> m[0] == '@');
    } else {
      MarkedSpells(w[1..], p[1..]);
      var m := Marked(p);
      assert (w + "@")[1..] == w[1..] + "@";
      if p[0] == w[0] {
        assert m == [p[0]] + Marked(p[1..]);
        assert m[1..] == Marked(p[1..]);
        assert w + "@" <= m <==> w[1..] + "@" <= m[1..] by { PrefixTail(w + "@", m); }
        assert w <= p <==> w[1..] <= p[1..] by { PrefixTail(w, p); }
      } else {
        assert m[0] != w[0] by { assert MARKER[0] == '@'; }
        assert (w + "@")[0] == w[0];
      }
    }
  }

  lemma PrefixTail(a: string, b: string)
    requires a != "" && b != "" && a[0] == b[0]
    ensures a <= b <==> a[1..] <= b[1..]
  {
    if a[1..] <= b[1..] {
      forall i | 0 <= i < |a| ensures i < |b| && a[i] == b[i] {
        if i > 0 { assert a[i] == a[1..][i - 1] == b[1..][i - 1]; }
      }
    }
  }

  lemma PrefixCons(c: char, a: string, b: string)
    ensures [c] + a <= [c] + b <==> a <= b
  {
    assert ([c] + a)[1..] == a && ([c] + b)[1..] == b;
    PrefixTail([c] + a, [c] + b);
  }

  // The same for a word that begins with '@'.
  lemma MarkedSpellsAt(w: string, q: string)
    requires forall i :: 0 <= i < |w| ==> w[i] != '@' && !IsMeta(w[i])
    ensures ['@'] + (w + "@") <= ['@'] + Marked(q) <==>
            ['@'] + w <= ['@'] + q && |q| > |w| && (q[|w|] == '@' || q[|w|] == '*')
  {
    MarkedSpells(w, q);
    PrefixCons('@', w + "@", Marked(q));
    PrefixCons('@', w, q);
  }

  // In the text between the two replacements, a literal '@' begins the marker exactly at a clash.
  lemma MarkerIffClash(p: string)
    requires p != "" && p[0] == '@'
    ensures MARKER <= Marked(p) <==> ClashAt(p)
  {
    MarkerIsOrdinary();
    MarkedSpellsAt(WORD, p[1..]);
    assert p == ['@'] + p[1..];
  }

  // The rewriting equals the character-by-character translation exactly when no clash occurs.
  lemma {:induction false} RewritingExact(p: string)
    ensures Replace(Escape(Replace(p, "*", MARKER)), MARKER, RUN) == Charwise(p) <==> !HasClash(p)
  {
    EscapedIsMarked(p);
    UnmarkExact(p);
  }

  lemma Cancel<T>(a: seq<T>, x: seq<T>, y: seq<T>)
    ensures a + x == a + y <==> x == y
  {
    if a + x == a + y {
      assert x == (a + x)[|a|..] == (a + y)[|a|..] == y;
    }
  }

  // Replacing steps over a character that starts no marker.
  lemma ReplaceStep(c: char, m: string)
    requires !(MARKER <= [c] + m)
    ensures Replace([c] + m, MARKER, RUN) == [c] + Replace(m, MARKER, RUN)
  {
    assert ([c] + m)[1..] == m;
  }

  lemma UnmarkStar(rest: string)
    ensures Replace(MARKER + rest, MARKER, RUN) == RUN + Replace(rest, MARKER, RUN)
  {
    assert (MARKER + rest)[|MARKER|..] == rest;
  }

  lemma UnmarkMeta(c: char, rest: string)
    requires IsMeta(c)
    ensures Replace(['\\', c] + rest, MARKER, RUN) == ['\\', c] + Replace(rest, MARKER, RUN)
  {
    assert ['\\', c] + rest == ['\\'] + ([c] + rest);
    assert MARKER[0] == '@';
    ReplaceStep('\\', [c] + rest);
    ReplaceStep(c, rest);
  }

  lemma {:induction false} UnmarkExact(p: string)
    ensures Replace(Marked(p), MARKER, RUN) == Charwise(p) <==> !HasClash(p)
  {
    if p != "" {
      var c, rest := p[0], Marked(p[1..]);
      var done := Replace(rest, MARKER, RUN);
      UnmarkExact(p[1..]);
      assert c != '@' ==> !ClashAt(p) && !(MARKER <= [c] + rest) by { assert STEM[0] == MARKER[0] == '@'; }
      if c == '*' {
        UnmarkStar(rest);
        Cancel(RUN, done, Charwise(p[1..]));
      } else if IsMeta(c) {
        UnmarkMeta(c, rest);
        Cancel(['\\', c], done, Charwise(p[1..]));
      } else {
        if c == '@' { MarkerIffClash(p); }
        if ClashAt(p) {
          assert Replace(Marked(p), MARKER, RUN)[0] == RUN[0];
        } else {
          ReplaceStep(c, rest);
          Cancel([c], done, Charwise(p[1..]));
        }
      }
    }
  }

  // ---------------------------------------------------------------- the expression accepts the glob language

  function GlobTokens(p: string): seq<Token> {
    if p == "" then [] else [if p[0] == '*' then AnyRun else Lit(p[0])] + GlobTokens(p[1..])
  }

  lemma CharTokens(c: char, x: string)
    ensures TokensOf(['\\', c] + x) == Prepend(Lit(c), TokensOf(x))
    ensures !IsMeta(c) ==> TokensOf([c] + x) == Prepend(Lit(c), TokensOf(x))
  {
    assert (['\\', c] + x)[2..] == x && ([c] + x)[1..] == x;
    assert RUN[0] == RUN1[0] == '[';
  }

  lemma RunTokens(x: string)
    ensures TokensOf(RUN + x) == Prepend(AnyRun, TokensOf(x))
  {
    assert (RUN + x)[|RUN|..] == x;
  }

  lemma {:induction false} TokensOfCharwise(p: string)
    ensures TokensOf(Charwise(p)) == Some(GlobTokens(p))
  {
    if p != "" {
      TokensOfCharwise(p[1..]);
      RunTokens(Charwise(p[1..]));
      CharTokens(p[0], Charwise(p[1..]));
    }
  }

  lemma {:induction false} AcceptsGlob(p: string, s: string)
    ensures Accepts(GlobTokens(p), s) <==> StarMatch(p, s)
    decreases |p| + |s|
  {
    if p != "" {
      var ts := GlobTokens(p);
      assert ts[1..] == GlobTokens(p[1..]);
      if p[0] == '*' {
        AcceptsGlob(p[1..], s);
        if s != "" { AcceptsGlob(p, s[1..]); }
        if StarMatch(p[1..], s) {
          assert s[0..] == s && NoSlash(s[..0]);
        } else if StarMatch(p, s) {
          var k :| 0 <= k <= |s[1..]| && NoSlash(s[1..][..k]) && Accepts(ts[1..], s[1..][k..]);
          assert s[1..][k..] == s[k + 1..];
          assert s[..k + 1] == [s[0]] + s[1..][..k];
        }
        if Accepts(ts, s) {
          var k :| 0 <= k <= |s| && NoSlash(s[..k]) && Accepts(ts[1..], s[k..]);
          if k > 0 {
            assert s[..k][0] == s[0] && s[1..][k - 1..] == s[k..] && s[1..][..k - 1] == s[..k][1..];
            assert Accepts(ts, s[1..]);
          } else {
            assert s[0..] == s;
          }
        }
      } else if s != "" {
        AcceptsGlob(p[1..], s[1..]);
      }
    }
  }

  // What is_match decides, for every pattern without a clash and every segment (segments hold no '/').
  lemma MatcherIsGlob(pattern: string, segment: string)
    requires !HasClash(pattern) && NoSlash(segment)
    ensures SegMatches(pattern, segment) <==> GlobMatch(pattern, segment)
  {
    var text := RegexText(pattern);
    assert text[1..|text| - 1] == Body(pattern);
    if pattern == "*" {
      assert RUN1[|RUN1|..] == "";
      assert !(RUN <= RUN1) by { assert RUN[4] != RUN1[4]; }
      assert TokensOf("") == Some([]);
      assert TokensOf(RUN1) == Prepend(AnyRun1, TokensOf(RUN1[|RUN1|..]));
      LoneStar(segment);
    } else {
      RewritingExact(pattern);
      TokensOfCharwise(pattern);
      AcceptsGlob(pattern, segment);
    }
  }

  lemma LoneStar(s: string)
    requires NoSlash(s)
    ensures Accepts([AnyRun1], s) <==> s != ""
    ensures StarMatch("*", s)
  {
    assert [AnyRun1][1..] == [];
    if s != "" {
      assert s[..|s|] == s && s[|s|..] == "";
    }
    AllStars("*", s);
  }

  lemma {:induction false} AllStars(p: string, s: string)
    requires p != "" && (forall i :: 0 <= i < |p| ==> p[i] == '*') && NoSlash(s)
    ensures StarMatch(p, s)
    decreases |p| + |s|
  {
    if s != "" { AllStars(p, s[1..]); } else if |p| > 1 { AllStars(p[1..], s); }
  }

  // The pattern text of the built-in rule matches every segment.
  lemma DefaultMatchesAll(segment: string)
    requires NoSlash(segment)
    ensures SegMatches("**", segment)
  {
    assert "**"[1..] == "*" && "*"[1..] == "";
    assert !HasClash("**") by { assert STEM[0] == '@'; }
    MatcherIsGlob("**", segment);
    AllStars("**", segment);
  }

  // A pattern without stars matches itself only.
  lemma {:induction false} LiteralMatches(p: string, s: string)
    requires '*' !in p
    ensures StarMatch(p, s) <==> p == s
  {
    if p != "" && s != "" {
      LiteralMatches(p[1..], s[1..]);
      assert p == [p[0]] + p[1..] && s == [s[0]] + s[1..];
    }
  }

  lemma {:induction false} MarkedPlain(p: string)
    requires forall i :: 0 <= i < |p| ==> !IsMeta(p[i])
    ensures Marked(p) == p
  {
    if p != "" { MarkedPlain(p[1..]); }
  }

  lemma BodyOfMarker()
    ensures Body(MARKER) == RUN
  {
    MarkerIsOrdinary();
    EscapedIsMarked(MARKER);
    MarkedPlain(MARKER);
    UnmarkStar("");
    assert MARKER + "" == MARKER;
  }

  lemma RunAcceptsEmpty()
    ensures TokensOf(RUN) == Some([AnyRun]) && Accepts([AnyRun], "")
  {
    assert RUN[|RUN|..] == "" && TokensOf("") == Some([]);
    assert TokensOf(RUN) == Prepend(AnyRun, TokensOf("")) && [AnyRun] + [] == [AnyRun];
    assert ""[0..] == "" && [AnyRun][1..] == [] && NoSlash(""[..0]);
  }

  // What is escaped, and how.
  lemma EscapedCharacter(c: char)
    ensures Escape([c]) ==
            if c in ['\\', '.', '+', '*', '?', '(', ')', '|', '[', ']', '{', '}', '^', '$', '#', '&', '-', '~']
            then ['\\', c] else [c]
  {
    assert [c][1..] == "" && ['\\', c] + "" == ['\\', c] && [c] + "" == [c];
  }

  // The texts handed to the regular expression engine: anchored at both ends, a lone star asking for a character,
  // any other star for none.
  lemma RegexTexts(p: string)
    ensures MARKER == "@KEEPENGINEGLOBSTAR@"
    ensures RegexText("*") == "^[^/]+$"
    ensures p != "*" && !HasClash(p) ==> RegexText(p) == "^" + Charwise(p) + "$"
    ensures Charwise("") == ""
    ensures p != "" ==> Charwise(p) ==
                        (if p[0] == '*' then "[^/]*" else Escape([p[0]])) + Charwise(p[1..])
  {
    RewritingExact(p);
    if p != "" { assert [p[0]][1..] == "" && [p[0]] + "" == [p[0]] && ['\\', p[0]] + "" == ['\\', p[0]]; }
  }

  // A clash changes what is accepted: the marker as a pattern matches the empty segment.
  lemma ClashExample()
    ensures HasClash(MARKER) && SegMatches(MARKER, "") && !GlobMatch(MARKER, "")
  {
    BodyOfMarker();
    RunAcceptsEmpty();
    var text := RegexText(MARKER);
    assert text == "^" + RUN + "$" && text[1..|text| - 1] == RUN;
    assert TokensOf(text[1..|text| - 1]) == Some([AnyRun]);
    assert SegMatches(MARKER, "");
    assert MARKER == STEM + "@" && ClashAt(MARKER);
    assert MARKER[0] == '@' && !StarMatch(MARKER, "");
  }
}
