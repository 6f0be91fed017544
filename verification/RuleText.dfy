// The text of a .keep file: splitting, the grammar of a rule line, and the list of rules a file stands for.
module RuleText {
  import opened Wrappers
  import opened Glob
  import opened DecisionTree

  // ---------------------------------------------------------------- str::split and str::splitn

  function Split(s: string, c: char): (parts: seq<string>)
    ensures parts != []
  {
    if s == "" then [""]
    else
      var rest := Split(s[1..], c);
      if s[0] == c then [""] + rest else [[s[0]] + rest[0]] + rest[1..]
  }

  function Join(parts: seq<string>, c: char): string
    requires parts != []
  {
    if |parts| == 1 then parts[0] else parts[0] + [c] + Join(parts[1..], c)
  }

  predicate FreeOf(parts: seq<string>, c: char) {
    forall p :: p in parts ==> c !in p
  }

  // Splitting at a character is undoing the join, and nothing else splits to the same parts.
  lemma {:induction false} SplitExact(s: string, c: char, parts: seq<string>)
    requires parts != []
    ensures Split(s, c) == parts <==> FreeOf(parts, c) && Join(parts, c) == s
  {
    JoinOfSplit(s, c);
    if FreeOf(parts, c) && Join(parts, c) == s { SplitOfJoin(parts, c); }
  }

  lemma {:induction false} JoinOfSplit(s: string, c: char)
    ensures FreeOf(Split(s, c), c) && Join(Split(s, c), c) == s
  {
    if s != "" {
      var rest := Split(s[1..], c);
      JoinOfSplit(s[1..], c);
      assert s == [s[0]] + s[1..];
      if s[0] == c {
        assert ([""] + rest)[1..] == rest;
        assert Join([""] + rest, c) == "" + [c] + s[1..];
      } else {
        var parts := [[s[0]] + rest[0]] + rest[1..];
        assert parts[1..] == rest[1..];
        if |rest| > 1 {
          assert [s[0]] + rest[0] + [c] + Join(rest[1..], c) == [s[0]] + (rest[0] + [c] + Join(rest[1..], c));
        }
      }
    }
  }

  lemma {:induction false} SplitOfJoin(parts: seq<string>, c: char)
    requires parts != [] && FreeOf(parts, c)
    ensures Split(Join(parts, c), c) == parts
    decreases |parts|, |parts[0]|
  {
    var s := Join(parts, c);
    if parts[0] == "" {
      if |parts| > 1 {
        assert s[1..] == Join(parts[1..], c);
        SplitOfJoin(parts[1..], c);
        assert parts == [""] + parts[1..];
      }
    } else {
      var shorter := [parts[0][1..]] + parts[1..];
      assert shorter[1..] == parts[1..];
      assert forall p :: p in shorter ==> p == parts[0][1..] || p in parts;
      assert parts[0] in parts;
      assert s[1..] == Join(shorter, c);
      SplitOfJoin(shorter, c);
      assert s[0] == parts[0][0] && parts[0][0] in parts[0];
      assert parts[0] == [s[0]] + shorter[0];
    }
  }

  function First(s: string, c: char): (i: nat)
    ensures i <= |s| && c !in s[..i] && (i < |s| ==> s[i] == c)
  {
    if s == "" || s[0] == c then 0 else 1 + First(s[1..], c)
  }

  function SplitN(s: string, n: nat, c: char): (parts: seq<string>)
    requires n > 0
    ensures 1 <= |parts| <= n
    decreases n
  {
    var i := First(s, c);
    if n == 1 || i == |s| then [s] else [s[..i]] + SplitN(s[i + 1..], n - 1, c)
  }

  lemma FirstUnique(x: string, y: string, c: char)
    requires c !in x
    ensures First(x + [c] + y, c) == |x|
  {
    var s := x + [c] + y;
    var i := First(s, c);
    assert s[|x|] == c;
    assert forall j :: 0 <= j < |x| ==> s[j] == x[j] && x[j] != c;
    assert forall j :: 0 <= j < i ==> s[..i][j] == s[j] && s[j] != c;
  }

  lemma SplitOff(s: string, n: nat, c: char, x: string, t: string)
    requires n > 1 && c !in x && s == x + [c] + t
    ensures SplitN(s, n, c) == [x] + SplitN(t, n - 1, c)
  {
    FirstUnique(x, t, c);
    assert s[..|x|] == x && s[|x| + 1..] == t;
  }

  lemma SplitBack(s: string, n: nat, c: char) returns (x: string, t: string)
    requires n > 1 && |SplitN(s, n, c)| > 1
    ensures c !in x && s == x + [c] + t && SplitN(s, n, c) == [x] + SplitN(t, n - 1, c)
  {
    var i := First(s, c);
    x, t := s[..i], s[i + 1..];
  }

  lemma SplitTwoBack(t: string, y: string, z: string)
    requires SplitN(t, 2, ' ') == [y, z]
    ensures ' ' !in y && t == y + [' '] + z
  {
    var y', z' := SplitBack(t, 2, ' ');
    assert SplitN(t, 2, ' ') == [y', z'];
    assert [y', z'][0] == y && [y', z'][1] == z;
  }

  lemma SplitThreeBack(s: string, x: string, y: string, z: string)
    requires SplitN(s, 3, ' ') == [x] + [y, z]
    ensures ' ' !in x && ' ' !in y && s == x + " " + y + " " + z
  {
    var x', t := SplitBack(s, 3, ' ');
    SameHead(x', SplitN(t, 2, ' '), x, [y, z]);
    SplitTwoBack(t, y, z);
    Regroup(x, y, z);
  }

  lemma SameHead(x: string, xs: seq<string>, y: string, ys: seq<string>)
    requires [x] + xs == [y] + ys
    ensures x == y && xs == ys
  {
    assert x == ([x] + xs)[0] && xs == ([x] + xs)[1..];
  }

  lemma Regroup(x: string, y: string, z: string)
    ensures x + " " + y + " " + z == x + [' '] + (y + [' '] + z)
  {
  }

  lemma SplitThree(s: string, x: string, y: string, z: string)
    ensures SplitN(s, 3, ' ') == [x, y, z] <==> ' ' !in x && ' ' !in y && s == x + " " + y + " " + z
  {
    if ' ' !in x && ' ' !in y && s == x + " " + y + " " + z {
      Regroup(x, y, z);
      SplitOff(s, 3, ' ', x, y + [' '] + z);
      SplitOff(y + [' '] + z, 2, ' ', y, z);
    }
    assert [x, y, z] == [x] + [y, z];
    if SplitN(s, 3, ' ') == [x, y, z] { SplitThreeBack(s, x, y, z); }
  }

  // ---------------------------------------------------------------- one rule line

  // Malformed: an assertion of add_rule_from_str fails. Invalid: it returns an error. Both end the program.
  datatype LineError = Malformed | Invalid

  function ActionWord(a: FileAction): string {
    match a case Delete => "delete" case Keep => "keep"
  }

  function ParseAction(s: string): Option<FileAction> {
    if s == "keep" then Some(Keep) else if s == "delete" then Some(Delete) else None
  }

  function ParseRule(line: string): Result<Rule, LineError> {
    var parts := SplitN(line, 3, ' ');
    if |parts| != 3 then Err(Malformed) else ParseParts(parts[0], parts[1], parts[2])
  }

  function ParseParts(first: string, second: string, pattern: string): Result<Rule, LineError> {
    var baseText := if "base:" <= first then first else second;
    var userText := if "user:" <= first then first else second;
    if !("base:" <= baseText && "user:" <= userText) then Err(Malformed)
    else
      match (ParseAction(baseText[5..]), ParseAction(userText[5..]))
      case (Some(base), Some(user)) => Ok(Rule(Split(pattern, '/'), Actions(base, user)))
      case _ => Err(Invalid)
  }

  function BaseText(rule: Rule): string {
    "base:" + ActionWord(rule.actions.base)
  }

  function UserText(rule: Rule): string {
    "user:" + ActionWord(rule.actions.user)
  }

  function BaseFirst(rule: Rule): string
    requires rule.segs != []
  {
    BaseText(rule) + " " + UserText(rule) + " " + Join(rule.segs, '/')
  }

  function UserFirst(rule: Rule): string
    requires rule.segs != []
  {
    UserText(rule) + " " + BaseText(rule) + " " + Join(rule.segs, '/')
  }

  lemma WordExact(s: string, tag: string, a: FileAction)
    requires |tag| == 5 && tag <= s
    ensures ParseAction(s[5..]) == Some(a) <==> s == tag + ActionWord(a)
  {
    assert s == tag + s[5..];
    assert (tag + ActionWord(a))[5..] == ActionWord(a);
  }

  lemma TagsDiffer(s: string)
    ensures !("base:" <= s && "user:" <= s)
  {
    assert "base:" <= s ==> s[0] == 'b';
    assert "user:" <= s ==> s[0] == 'u';
  }

  lemma PartsExact(first: string, second: string, pattern: string, rule: Rule)
    ensures ParseParts(first, second, pattern) == Ok(rule) <==>
            Split(pattern, '/') == rule.segs &&
            ((first == BaseText(rule) && second == UserText(rule)) ||
             (first == UserText(rule) && second == BaseText(rule)))
  {
    TagsDiffer(first);
    TagsDiffer(second);
    if "base:" <= first && "user:" <= second {
      WordExact(first, "base:", rule.actions.base);
      WordExact(second, "user:", rule.actions.user);
    }
    if "user:" <= first && "base:" <= second {
      WordExact(second, "base:", rule.actions.base);
      WordExact(first, "user:", rule.actions.user);
    }
  }

  lemma TextsHaveNoSpace(rule: Rule)
    ensures ' ' !in BaseText(rule) && ' ' !in UserText(rule)
  {
  }

  // A line stands for a rule exactly when it spells that rule with the two actions in either order.
  lemma ParseRuleExact(line: string, rule: Rule)
    ensures ParseRule(line) == Ok(rule) <==>
            rule.segs != [] && FreeOf(rule.segs, '/') && (line == BaseFirst(rule) || line == UserFirst(rule))
  {
    var b, u, parts := BaseText(rule), UserText(rule), SplitN(line, 3, ' ');
    TextsHaveNoSpace(rule);
    if |parts| == 3 {
      assert parts == [parts[0], parts[1], parts[2]];
      SplitThree(line, parts[0], parts[1], parts[2]);
      PartsExact(parts[0], parts[1], parts[2], rule);
      if rule.segs != [] { SplitExact(parts[2], '/', rule.segs); }
    }
    if rule.segs != [] {
      var z := Join(rule.segs, '/');
      SplitThree(line, b, u, z);
      SplitThree(line, u, b, z);
    }
  }

  // ---------------------------------------------------------------- a whole file

  // char::is_whitespace
  predicate IsWhite(c: char) {
    '\t' <= c <= '\r' || c == ' ' || c == '\U{85}' || c == '\U{A0}' || c == '\U{1680}' ||
    '\U{2000}' <= c <= '\U{200A}' || c == '\U{2028}' || c == '\U{2029}' || c == '\U{202F}' || c == '\U{205F}' ||
    c == '\U{3000}'
  }

  // Comment lines and lines of white space only carry no rule.
  predicate IsRuleLine(line: string) {
    !("#" <= line) && exists i :: 0 <= i < |line| && !IsWhite(line[i])
  }

  // The rules of the lines read so far, in file order, or the first failure.
  function FileRules(lines: seq<string>): (read: Result<seq<Rule>, LineError>)
    ensures read.Ok? ==> forall r :: r in read.value ==> r.segs != []
  {
    if lines == [] then Ok([])
    else
      var line := lines[|lines| - 1];
      match FileRules(lines[..|lines| - 1])
      case Err(e) => Err(e)
      case Ok(rules) =>
        if !IsRuleLine(line) then Ok(rules)
        else match ParseRule(line)
          case Err(e) => Err(e)
          case Ok(rule) => if ValidSegments(rule.segs) then Ok(rules + [rule]) else Err(Invalid)
  }

  // ASCII white space.
  lemma AsciiWhite(c: char)
    requires c < '\U{80}'
    ensures IsWhite(c) <==> c in [' ', '\t', '\n', '\U{B}', '\U{C}', '\r']
  {
  }

  lemma IsComment(line: string)
    ensures "#" <= line <==> line != "" && line[0] == '#'
    ensures IsRuleLine(line) <==>
            !(line != "" && line[0] == '#') && !forall i :: 0 <= i < |line| ==> IsWhite(line[i])
  {
  }

  // A comment, or a line of white space only, makes no difference wherever it stands.
  lemma {:induction false} SkippedLine(lines: seq<string>, i: nat, line: string)
    requires i <= |lines| && ((line != "" && line[0] == '#') || forall k :: 0 <= k < |line| ==> IsWhite(line[k]))
    ensures FileRules(lines[..i] + [line] + lines[i..]) == FileRules(lines)
    decreases |lines|
  {
    var all := lines[..i] + [line] + lines[i..];
    if i == |lines| {
      assert all[..|all| - 1] == lines && all[|all| - 1] == line;
      assert line != "" && line[0] == '#' ==> "#" <= line;
    } else {
      var init := lines[..|lines| - 1];
      SkippedLine(init, i, line);
      assert all[..|all| - 1] == init[..i] + [line] + init[i..] && all[|all| - 1] == lines[|lines| - 1];
    }
  }

  function Word(a: FileAction): string {
    match a case Keep => "keep" case Delete => "delete"
  }

  // How a line may spell a rule whose segments are "**" or free of two stars in a row.
  predicate Spells(line: string, r: Rule) {
    r.segs != [] && FreeOf(r.segs, '/') &&
    (forall s, i :: s in r.segs && s != "**" && 0 <= i < |s| - 1 ==> !(s[i] == '*' && s[i + 1] == '*')) &&
    (line == "base:" + Word(r.actions.base) + " " + ("user:" + Word(r.actions.user)) + " " + Join(r.segs, '/') ||
     line == "user:" + Word(r.actions.user) + " " + ("base:" + Word(r.actions.base)) + " " + Join(r.segs, '/'))
  }

  // Every other line adds exactly the rule it spells, and is an error if it spells none.
  lemma ReadLineExactly(before: seq<string>, line: string, rules: seq<Rule>, r: Rule)
    requires FileRules(before) == Ok(rules) && !(line != "" && line[0] == '#')
    requires exists k :: 0 <= k < |line| && !IsWhite(line[k])
    ensures FileRules(before + [line]) == Ok(rules + [r]) <==> Spells(line, r)
    ensures FileRules(before + [line]).Ok? ==>
              exists r1 :: Spells(line, r1) && FileRules(before + [line]) == Ok(rules + [r1])
  {
    var all := before + [line];
    assert all[..|all| - 1] == before && all[|all| - 1] == line && !("#" <= line);
    assert IsRuleLine(line);
    SpellsExactly(line, r);
    if ParseRule(line).Ok? {
      SpellsExactly(line, ParseRule(line).value);
      assert rules + [r] == rules + [ParseRule(line).value] ==> r == ParseRule(line).value by {
        assert (rules + [r])[|rules|] == r && (rules + [ParseRule(line).value])[|rules|] == ParseRule(line).value;
      }
    }
  }

  lemma SpellsExactly(line: string, r: Rule)
    ensures Spells(line, r) <==> ParseRule(line) == Ok(r) && ValidSegments(r.segs)
  {
    ParseRuleExact(line, r);
    assert Word(r.actions.base) == ActionWord(r.actions.base) && Word(r.actions.user) == ActionWord(r.actions.user);
    assert ValidSegments(r.segs) <==>
           forall s, i :: s in r.segs && s != "**" && 0 <= i < |s| - 1 ==> !(s[i] == '*' && s[i + 1] == '*');
  }

  // The rule added after the ones of the file: base:keep user:delete .keep
  const KEEP_RULE := Rule([".keep"], Actions(Keep, Delete))

  const KEEP_LINE := "base:" + "keep" + " " + ("user:" + "delete") + " " + ".keep"

  lemma KeepRuleText()
    ensures ParseRule(KEEP_LINE) == Ok(KEEP_RULE)
  {
    assert KEEP_LINE == BaseFirst(KEEP_RULE);
    ParseRuleExact(KEEP_LINE, KEEP_RULE);
  }

  lemma KeepLineText()
    ensures KEEP_LINE == "base:keep user:delete .keep"
  {
    assert "base:" + "keep" == "base:keep" && "user:" + "delete" == "user:delete";
    assert "base:keep" + " " == "base:keep " && "user:delete" + " " == "user:delete ";
    assert "base:keep " + "user:delete" == "base:keep user:delete";
    assert "base:keep user:delete" + " " == "base:keep user:delete ";
    assert "base:keep user:delete " + ".keep" == "base:keep user:delete .keep";
  }

  lemma KeepRuleValid()
    ensures ValidSegments(KEEP_RULE.segs)
  {
    assert forall i :: 0 <= i < |KEEP_RULE.segs[0]| ==> KEEP_RULE.segs[0][i] != '*';
  }

  // A pattern of ordinary characters matches itself only.
  lemma PlainMatches(p: string, s: string)
    requires '@' !in p && '*' !in p && NoSlash(s)
    ensures SegMatches(p, s) <==> s == p
  {
    NoAtNoClash(p);
    MatcherIsGlob(p, s);
    LiteralMatches(p, s);
  }

  // Whatever rules the file holds, ".keep" and all below it is kept in the base layer and deleted in the user
  // layer, and every other path is decided by the rules of the file alone.
  lemma KeepRuleEnforced(rules: seq<Rule>, path: seq<string>)
    requires IsPath(path)
    ensures Verdict(rules + [KEEP_RULE], path) ==
            if path[0] == ".keep" then Actions(Keep, Delete) else Verdict(rules, path)
  {
    var all := rules + [KEEP_RULE];
    assert all[..|all| - 1] == rules;
    PlainMatches(".keep", path[0]);
    assert Matches(KEEP_RULE.segs[1..], path[1..]);
  }

  lemma {:induction false} NoAtNoClash(p: string)
    requires '@' !in p
    ensures !HasClash(p)
  {
    if p != "" {
      assert STEM[0] == '@';
      NoAtNoClash(p[1..]);
    }
  }
}
