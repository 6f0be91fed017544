// When a segment pattern is matched as the glob it looks like: exactly when the pattern has no marker clash. The
// expression and the glob are compared by the shortest segments they accept.
module GlobExact {
  import opened Wrappers
  import opened Glob

  // ---------------------------------------------------------------- the expression as tokens, for every pattern

  function Starred(p: string): string {
    Replace(p, "*", MARKER)
  }

  // The tokens of a text with markers in it.
  function Scan(m: string): seq<Token>
    decreases |m|
  {
    if m == "" then []
    else if MARKER <= m then [AnyRun] + Scan(m[|MARKER|..])
    else [Lit(m[0])] + Scan(m[1..])
  }

  // Escaping neither makes nor hides a word of ordinary characters at the front.
  lemma {:induction false} EscapeKeepsPrefix(w: string, m: string)
    requires forall i :: 0 <= i < |w| ==> !IsMeta(w[i])
    ensures w <= Escape(m) <==> w <= m
  {
    if w != "" && m != "" {
      EscapeKeepsPrefix(w[1..], m[1..]);
      if w[0] == m[0] {
        assert Escape(m) == [m[0]] + Escape(m[1..]) && Escape(m)[1..] == Escape(m[1..]);
        PrefixTail(w, m);
        PrefixTail(w, Escape(m));
      } else {
        assert Escape(m)[0] == '\\' || Escape(m)[0] == m[0];
        assert IsMeta('\\');
      }
    }
  }

  lemma Parts(m: string)
    requires m != ""
    ensures m == [m[0]] + m[1..]
    ensures MARKER <= m ==> m == MARKER + m[|MARKER|..]
  {
  }

  // The replacement text of the regular expression, for a text with markers in it.
  function Unmarked(m: string): string {
    Replace(Escape(m), MARKER, RUN)
  }

  lemma UnmarkedMarker(rest: string)
    ensures Unmarked(MARKER + rest) == RUN + Unmarked(rest)
  {
    MarkerIsOrdinary();
    EscapedPlain(MARKER, rest);
    UnmarkStar(Escape(rest));
  }

  lemma UnmarkedChar(c: char, rest: string)
    requires !(MARKER <= [c] + rest)
    ensures Unmarked([c] + rest) == (if IsMeta(c) then ['\\', c] else [c]) + Unmarked(rest)
  {
    EscapedChar(c, rest);
    if IsMeta(c) {
      UnmarkMeta(c, Escape(rest));
    } else {
      MarkerIsOrdinary();
      EscapeKeepsPrefix(MARKER, [c] + rest);
      ReplaceStep(c, Escape(rest));
    }
  }

  lemma {:induction false} ScanIsTokens(m: string)
    ensures TokensOf(Unmarked(m)) == Some(Scan(m))
    decreases |m|
  {
    if m != "" {
      Parts(m);
      if MARKER <= m {
        ScanIsTokens(m[|MARKER|..]);
        UnmarkedMarker(m[|MARKER|..]);
        RunTokens(Unmarked(m[|MARKER|..]));
      } else {
        ScanIsTokens(m[1..]);
        UnmarkedChar(m[0], m[1..]);
        CharTokens(m[0], Unmarked(m[1..]));
      }
    }
  }

  lemma MatcherIsScan(p: string, s: string)
    requires p != "*"
    ensures SegMatches(p, s) <==> Accepts(Scan(Starred(p)), s)
  {
    var text := RegexText(p);
    assert text[1..|text| - 1] == Body(p);
    ScanIsTokens(Starred(p));
  }

  // ---------------------------------------------------------------- shortest accepted segments

  predicate Simple(ts: seq<Token>) {
    forall t :: t in ts ==> !t.AnyRun1?
  }

  // The literals alone.
  function Literals(ts: seq<Token>): string {
    if ts == [] then "" else (if ts[0].Lit? then [ts[0].c] else "") + Literals(ts[1..])
  }

  lemma {:induction false} LiteralsAccepted(ts: seq<Token>)
    requires Simple(ts)
    ensures Accepts(ts, Literals(ts))
  {
    if ts != [] {
      LiteralsAccepted(ts[1..]);
      var s := Literals(ts);
      if ts[0].Lit? {
        assert s[1..] == Literals(ts[1..]);
      } else {
        assert ts[0] in ts && s[0..] == Literals(ts[1..]) && NoSlash(s[..0]);
      }
    }
  }

  // Nothing shorter is accepted, and nothing else of that length.
  lemma {:induction false} LiteralsShortest(ts: seq<Token>, s: string)
    requires Accepts(ts, s)
    ensures |Literals(ts)| <= |s| && (|Literals(ts)| == |s| ==> Literals(ts) == s)
    decreases |ts|
  {
    if ts != [] {
      if ts[0].Lit? {
        LiteralsShortest(ts[1..], s[1..]);
        assert s == [s[0]] + s[1..];
      } else {
        var k :| 0 <= k <= |s| && NoSlash(s[..k]) && Accepts(ts[1..], s[k..]);
        LiteralsShortest(ts[1..], s[k..]);
        assert k == 0 ==> s[k..] == s;
      }
    }
  }

  // With no literals at all, every segment is accepted.
  lemma {:induction false} RunsAccept(ts: seq<Token>, s: string)
    requires Simple(ts) && ts != [] && Literals(ts) == "" && NoSlash(s)
    ensures Accepts(ts, s)
  {
    assert ts[0] in ts && ts[0] == AnyRun;
    if |ts| == 1 {
      assert s[..|s|] == s && s[|s|..] == "" && ts[1..] == [];
    } else {
      RunsAccept(ts[1..], s);
      assert s[0..] == s && NoSlash(s[..0]);
    }
  }

  // The text without its markers.
  function Dropped(m: string): string {
    Replace(m, MARKER, "")
  }

  lemma {:induction false} ScanLiterals(m: string)
    ensures Literals(Scan(m)) == Dropped(m) && Simple(Scan(m))
    decreases |m|
  {
    if m != "" { ScanLiterals(if MARKER <= m then m[|MARKER|..] else m[1..]); }
  }

  lemma {:induction false} GlobLiterals(p: string)
    ensures Literals(GlobTokens(p)) == WithoutStars(p) && Simple(GlobTokens(p))
  {
    if p != "" { GlobLiterals(p[1..]); }
  }

  function WithoutStars(p: string): string {
    if p == "" then "" else (if p[0] == '*' then "" else [p[0]]) + WithoutStars(p[1..])
  }

  // The shortest segment the expression accepts; for the glob it is WithoutStars.
  function Shortest(p: string): string {
    Dropped(Starred(p))
  }

  lemma ShortestAccepted(p: string, s: string)
    requires p != "*"
    ensures SegMatches(p, Shortest(p))
    ensures SegMatches(p, s) ==> |Shortest(p)| <= |s| && (|Shortest(p)| == |s| ==> Shortest(p) == s)
  {
    ScanLiterals(Starred(p));
    LiteralsAccepted(Scan(Starred(p)));
    MatcherIsScan(p, Shortest(p));
    MatcherIsScan(p, s);
    if SegMatches(p, s) { LiteralsShortest(Scan(Starred(p)), s); }
  }

  lemma WithoutStarsAccepted(p: string, s: string)
    ensures StarMatch(p, WithoutStars(p))
    ensures StarMatch(p, s) ==> |WithoutStars(p)| <= |s| && (|WithoutStars(p)| == |s| ==> WithoutStars(p) == s)
  {
    GlobLiterals(p);
    LiteralsAccepted(GlobTokens(p));
    AcceptsGlob(p, WithoutStars(p));
    AcceptsGlob(p, s);
    if StarMatch(p, s) { LiteralsShortest(GlobTokens(p), s); }
  }

  lemma {:induction false} NoSlashKept(p: string, from: string, to: string)
    requires from != "" && NoSlash(p) && NoSlash(to)
    ensures NoSlash(Replace(p, from, to))
    decreases |p|
  {
    if p != "" { NoSlashKept(if from <= p then p[|from|..] else p[1..], from, to); }
  }

  lemma ShortestNoSlash(p: string)
    requires NoSlash(p)
    ensures NoSlash(Shortest(p))
  {
    NoSlashKept(p, "*", MARKER);
    NoSlashKept(Starred(p), MARKER, "");
  }

  lemma {:induction false} WithoutStarsNoSlash(p: string)
    requires NoSlash(p)
    ensures NoSlash(WithoutStars(p))
  {
    if p != "" { WithoutStarsNoSlash(p[1..]); }
  }

  // ---------------------------------------------------------------- how a clash changes the shortest segment

  lemma StarredChar(c: char, q: string)
    ensures Starred([c] + q) == (if c == '*' then MARKER else [c]) + Starred(q)
  {
    assert ([c] + q)[1..] == q && ([c] + q)[0] == c && ("*" <= [c] + q <==> c == "*"[0]);
  }

  lemma {:induction false} StarredWord(w: string, q: string)
    requires '*' !in w
    ensures Starred(w + q) == w + Starred(q)
  {
    if w == "" {
      assert w + q == q;
    } else {
      StarredWord(w[1..], q);
      StarredChar(w[0], w[1..] + q);
      assert w + q == [w[0]] + (w[1..] + q) && w + Starred(q) == [w[0]] + (w[1..] + Starred(q));
    }
  }

  lemma DroppedMarker(m: string)
    ensures Dropped(MARKER + m) == Dropped(m)
  {
    assert (MARKER + m)[|MARKER|..] == m;
  }

  lemma {:induction false} DroppedWord(w: string, m: string)
    requires '@' !in w
    ensures Dropped(w + m) == w + Dropped(m)
  {
    if w == "" {
      assert w + m == m;
    } else {
      DroppedWord(w[1..], m);
      assert (w + m)[1..] == w[1..] + m && (w + m)[0] == w[0] != MARKER[0];
      assert w + Dropped(m) == [w[0]] + (w[1..] + Dropped(m));
    }
  }

  lemma StarredBegins(p: string)
    requires p != "" && p[0] != '*'
    ensures MARKER <= Starred(p) <==> ClashAt(p)
  {
    if p[0] == '@' {
      MarkerIsOrdinary();
      EscapeKeepsPrefix(MARKER, Starred(p));
      EscapedIsMarked(p);
      MarkerIffClash(p);
    } else {
      Parts(p);
      StarredChar(p[0], p[1..]);
      assert Starred(p)[0] == p[0] && STEM[0] == MARKER[0] == '@';
    }
  }

  lemma ShortestStar(p: string)
    requires p != "" && p[0] == '*'
    ensures Shortest(p) == Shortest(p[1..])
  {
    Parts(p);
    StarredChar('*', p[1..]);
    DroppedMarker(Starred(p[1..]));
  }

  lemma ShortestChar(p: string)
    requires p != "" && p[0] != '*' && !ClashAt(p)
    ensures Shortest(p) == [p[0]] + Shortest(p[1..])
  {
    Parts(p);
    StarredBegins(p);
    StarredChar(p[0], p[1..]);
    assert ([p[0]] + Starred(p[1..]))[1..] == Starred(p[1..]);
  }

  // A clash with a literal '@' swallows the whole word.
  lemma ShortestClashAt(p: string)
    requires ClashAt(p) && p[|STEM|] == '@'
    ensures Shortest(p) == Shortest(p[|MARKER|..]) && WithoutStars(p) == MARKER + WithoutStars(p[|MARKER|..])
  {
    var q := p[|MARKER|..];
    assert p == MARKER + q;
    StarredWord(MARKER, q);
    DroppedMarker(Starred(q));
    WithoutStarsWord(MARKER, q);
  }

  lemma WordIsLetters()
    ensures '@' !in WORD && '*' !in STEM
  {
    MarkerIsOrdinary();
    assert forall i :: 0 <= i < |STEM| ==> STEM[i] == MARKER[i];
    assert IsMeta('*');
  }

  // A word with a star behind it, and the marker put in for the star.
  lemma StarMoves(m: string)
    ensures STEM + (MARKER + m) == MARKER + (WORD + (['@'] + m))
  {
    assert MARKER == STEM + ['@'] && MARKER == ['@'] + WORD + ['@'];
  }

  // A clash with a star takes the first '@' and leaves the last one of the marker put in.
  lemma ShortestClashStar(p: string)
    requires ClashAt(p) && p[|STEM|] == '*'
    ensures Shortest(p) == WORD + Shortest(['@'] + p[|MARKER|..])
    ensures WithoutStars(p) == STEM + WithoutStars(p[|MARKER|..])
    ensures |WithoutStars(['@'] + p[|MARKER|..])| == 1 + |WithoutStars(p[|MARKER|..])|
  {
    var q := p[|MARKER|..];
    assert p == STEM + (['*'] + q);
    WordIsLetters();
    StarredWord(STEM, ['*'] + q);
    StarredChar('*', q);
    StarredChar('@', q);
    StarMoves(Starred(q));
    DroppedMarker(WORD + (['@'] + Starred(q)));
    DroppedWord(WORD, ['@'] + Starred(q));
    WithoutStarsWord(STEM, ['*'] + q);
    assert (['*'] + q)[1..] == q && (['@'] + q)[1..] == q;
  }

  lemma {:induction false} WithoutStarsWord(w: string, q: string)
    requires '*' !in w
    ensures WithoutStars(w + q) == w + WithoutStars(q)
  {
    if w == "" {
      assert w + q == q;
    } else {
      WithoutStarsWord(w[1..], q);
      assert (w + q)[1..] == w[1..] + q && w + WithoutStars(q) == [w[0]] + (w[1..] + WithoutStars(q));
    }
  }

  // The expression never asks for more characters than the glob.
  lemma {:induction false} ShortestNotLonger(p: string)
    ensures |Shortest(p)| <= |WithoutStars(p)|
    decreases |p|
  {
    if p != "" {
      if p[0] == '*' {
        ShortestStar(p);
        ShortestNotLonger(p[1..]);
      } else if !ClashAt(p) {
        ShortestChar(p);
        ShortestNotLonger(p[1..]);
      } else if p[|STEM|] == '@' {
        ShortestClashAt(p);
        ShortestNotLonger(p[|MARKER|..]);
      } else {
        ShortestClashStar(p);
        ShortestNotLonger(['@'] + p[|MARKER|..]);
      }
    }
  }

  // The two shortest segments are the same exactly when there is no clash.
  lemma {:induction false} ShortestExact(p: string)
    ensures Shortest(p) == WithoutStars(p) <==> !HasClash(p)
  {
    if p != "" {
      assert p[0] == '*' ==> !ClashAt(p) by { assert STEM[0] == '@'; }
      if p[0] == '*' {
        ShortestStar(p);
        ShortestExact(p[1..]);
      } else if !ClashAt(p) {
        ShortestChar(p);
        ShortestExact(p[1..]);
        Cancel([p[0]], Shortest(p[1..]), WithoutStars(p[1..]));
      } else if p[|STEM|] == '@' {
        ShortestClashAt(p);
        ShortestNotLonger(p[|MARKER|..]);
      } else {
        ShortestClashStar(p);
        assert Shortest(p)[0] == WORD[0] && WithoutStars(p)[0] == STEM[0];
      }
    }
  }

  // A pattern is matched as the glob it looks like, on all segments, if and only if it has no clash.
  lemma MatchingExact(p: string)
    requires NoSlash(p)
    ensures (forall s :: NoSlash(s) ==> (SegMatches(p, s) <==> GlobMatch(p, s))) <==> !HasClash(p)
  {
    if HasClash(p) {
      assert p != "*" by { assert !HasClash("*"); }
      var s := if |Shortest(p)| <= |WithoutStars(p)| then Shortest(p) else WithoutStars(p);
      ShortestExact(p);
      ShortestAccepted(p, s);
      WithoutStarsAccepted(p, s);
      ShortestNoSlash(p);
      WithoutStarsNoSlash(p);
      assert NoSlash(s) && SegMatches(p, s) != GlobMatch(p, s);
    } else {
      forall s | NoSlash(s) ensures SegMatches(p, s) <==> GlobMatch(p, s) { MatcherIsGlob(p, s); }
    }
  }

  // ---------------------------------------------------------------- a name for every pattern

  // A segment matched by the pattern, empty for the empty pattern only.
  function SegmentFor(p: string): string {
    if p != "" && Shortest(p) == "" then "x" else Shortest(p)
  }

  lemma SegmentForMatches(p: string)
    requires NoSlash(p)
    ensures NoSlash(SegmentFor(p)) && SegMatches(p, SegmentFor(p)) && (SegmentFor(p) == "" ==> p == "")
  {
    ShortestNoSlash(p);
    if p == "*" {
      assert "*"[1..] == "" && WithoutStars("*") == "" + WithoutStars("");
      ShortestNotLonger(p);
      AllStars(p, "x");
      assert !HasClash("*");
      MatcherIsGlob(p, "x");
    } else if p != "" && Shortest(p) == "" {
      ScanLiterals(Starred(p));
      assert Starred(p) != "";
      RunsAccept(Scan(Starred(p)), "x");
      MatcherIsScan(p, "x");
    } else {
      ShortestAccepted(p, Shortest(p));
    }
  }

  // The literals with one more character for the first star.
  function Filled(ts: seq<Token>): string {
    if ts == [] then ""
    else if ts[0].Lit? then [ts[0].c] + Filled(ts[1..])
    else "x" + Literals(ts[1..])
  }

  lemma LitAccepted(t: Token, ts: seq<Token>, c: char, s: string)
    requires t == Lit(c) && Accepts(ts, s)
    ensures Accepts([t] + ts, [c] + s)
  {
    assert ([t] + ts)[1..] == ts && ([c] + s)[1..] == s;
  }

  lemma RunAcceptsOne(ts: seq<Token>, c: char, s: string)
    requires c != '/' && Accepts(ts, s)
    ensures Accepts([AnyRun] + ts, [c] + s)
  {
    assert ([AnyRun] + ts)[1..] == ts && ([c] + s)[1..] == s && NoSlash(([c] + s)[..1]);
  }

  lemma {:induction false} FilledAccepted(ts: seq<Token>)
    requires Simple(ts) && AnyRun in ts
    ensures Accepts(ts, Filled(ts)) && |Filled(ts)| == |Literals(ts)| + 1
    ensures NoSlash(Literals(ts)) ==> NoSlash(Filled(ts))
  {
    assert ts[0] in ts && ts == [ts[0]] + ts[1..];
    if ts[0].Lit? {
      FilledAccepted(ts[1..]);
      LitAccepted(ts[0], ts[1..], ts[0].c, Filled(ts[1..]));
      NoSlashTail(ts[0].c, Literals(ts[1..]), Filled(ts[1..]));
    } else {
      LiteralsAccepted(ts[1..]);
      RunAcceptsOne(ts[1..], 'x', Literals(ts[1..]));
      assert Literals(ts) == Literals(ts[1..]) && Filled(ts) == ['x'] + Literals(ts);
    }
  }

  lemma NoSlashTail(c: char, a: string, b: string)
    requires NoSlash(a) ==> NoSlash(b)
    ensures NoSlash([c] + a) ==> NoSlash([c] + b)
  {
    if NoSlash([c] + a) {
      assert ([c] + a)[0] == c;
      forall i | 0 <= i < |a| ensures a[i] != '/' { assert ([c] + a)[i + 1] == a[i]; }
    }
  }

  // Without a star or marker nothing is dropped.
  lemma {:induction false} NothingDropped(m: string)
    requires AnyRun !in Scan(m)
    ensures Dropped(m) == m
    decreases |m|
  {
    if m != "" {
      assert Scan(m)[0] in Scan(m);
      Parts(m);
      NothingDropped(m[1..]);
    }
  }

  lemma {:induction false} StarredLonger(p: string)
    ensures Starred(p) == p || |Starred(p)| >= |MARKER|
  {
    if p != "" {
      Parts(p);
      StarredChar(p[0], p[1..]);
      StarredLonger(p[1..]);
    }
  }

  // A matching segment that is not the given short one, unless the pattern spells just that.
  function SegmentBeside(p: string, short: string): string {
    if p == short || SegmentFor(p) != short then SegmentFor(p) else Filled(Scan(Starred(p)))
  }

  lemma SegmentBesideMatches(p: string, short: string)
    requires NoSlash(p) && p != "" && 1 < |short| < |MARKER|
    ensures var s := SegmentBeside(p, short);
            NoSlash(s) && s != "" && SegMatches(p, s) && (p != short ==> s != short)
  {
    SegmentForMatches(p);
    if p != short && SegmentFor(p) == short {
      assert Shortest(p) == short;
      ShortestNoSlash(p);
      var ts := Scan(Starred(p));
      ScanLiterals(Starred(p));
      assert AnyRun in ts by {
        if AnyRun !in ts {
          NothingDropped(Starred(p));
          StarredLonger(p);
        }
      }
      FilledAccepted(ts);
      assert p != "*" by { assert Starred("*") == MARKER + ""; }
      MatcherIsScan(p, Filled(ts));
    }
  }
}
