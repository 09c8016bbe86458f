/**
 Package patterns of internal/importing/import.go: the limited glob in which
 "..." stands for any text, and the test that lets a walk skip whole trees.
*/
module PackagePattern {
  import opened Sequences

  // ----- matchPattern -----

  datatype Token = Literal(c: char) | Any

  predicate AtDots(s: string) {
    |s| >= 3 && s[0] == '.' && s[1] == '.' && s[2] == '.'
  }

  /** The quoted pattern with each "...", from the left, turned into ".*". */
  function Tokens(pattern: string): seq<Token> {
    if pattern == "" then []
    else if AtDots(pattern) then [Any] + Tokens(pattern[3..])
    else [Literal(pattern[0])] + Tokens(pattern[1..])
  }

  /** An anchored regular expression of literals and ".*", which does not match
      a newline. */
  ghost predicate MatchTokens(ts: seq<Token>, name: string)
    decreases |ts|
  {
    if ts == [] then name == ""
    else if ts[0].Literal? then name != "" && name[0] == ts[0].c && MatchTokens(ts[1..], name[1..])
    else exists k :: 0 <= k <= |name| && '\n' !in name[..k] && MatchTokens(ts[1..], name[k..])
  }

  predicate EndsInTree(ts: seq<Token>) {
    |ts| >= 2 && ts[|ts| - 2] == Literal('/') && ts[|ts| - 1].Any?
  }

  /** matchPattern; a pattern foo/... matches foo too. */
  ghost predicate Match(pattern: string, name: string) {
    var ts := Tokens(pattern);
    MatchTokens(ts, name) || (EndsInTree(ts) && MatchTokens(ts[..|ts| - 2], name))
  }

  /** The name the tokens match when their wildcards stand for these texts. */
  function Filled(ts: seq<Token>, gaps: seq<string>): string
    requires Wildcards(ts) <= |gaps|
  {
    if ts == [] then ""
    else if ts[0].Literal? then [ts[0].c] + Filled(ts[1..], gaps)
    else gaps[0] + Filled(ts[1..], gaps[1..])
  }

  function Wildcards(ts: seq<Token>): nat {
    if ts == [] then 0 else (if ts[0].Any? then 1 else 0) + Wildcards(ts[1..])
  }

  ghost predicate Fills(ts: seq<Token>, gaps: seq<string>, name: string) {
    && |gaps| == Wildcards(ts) && Filled(ts, gaps) == name
    && forall i :: 0 <= i < |gaps| ==> '\n' !in gaps[i]
  }

  /** The tokens match exactly the names that texts without a newline in place of
      the wildcards give. */
  lemma {:induction false} MatchIsFilling(ts: seq<Token>, name: string)
    ensures MatchTokens(ts, name) <==> exists gaps :: Fills(ts, gaps, name)
  {
    if MatchTokens(ts, name) {
      var gaps := GapsOf(ts, name);
      assert Fills(ts, gaps, name);
    }
    forall gaps | Fills(ts, gaps, name) ensures MatchTokens(ts, name) {
      FilledMatches(ts, gaps, name);
    }
  }

  lemma {:induction false} GapsOf(ts: seq<Token>, name: string) returns (gaps: seq<string>)
    requires MatchTokens(ts, name)
    ensures Fills(ts, gaps, name)
    decreases |ts|
  {
    if ts == [] {
      gaps := [];
    } else if ts[0].Literal? {
      gaps := GapsOf(ts[1..], name[1..]);
      assert name == [name[0]] + name[1..];
    } else {
      var k :| 0 <= k <= |name| && '\n' !in name[..k] && MatchTokens(ts[1..], name[k..]);
      var others := GapsOf(ts[1..], name[k..]);
      gaps := [name[..k]] + others;
      assert gaps[1..] == others;
    }
  }

  lemma {:induction false} FilledMatches(ts: seq<Token>, gaps: seq<string>, name: string)
    requires Fills(ts, gaps, name)
    ensures MatchTokens(ts, name)
    decreases |ts|
  {
    if ts != [] {
      if ts[0].Literal? {
        assert name[1..] == Filled(ts[1..], gaps);
        FilledMatches(ts[1..], gaps, name[1..]);
      } else {
        var k := |gaps[0]|;
        assert name[..k] == gaps[0] && name[k..] == Filled(ts[1..], gaps[1..]);
        FilledMatches(ts[1..], gaps[1..], name[k..]);
      }
    }
  }

  // ----- treeCanMatchPattern -----

  predicate HasPathPrefix(s: string, prefix: string) {
    if |s| == |prefix| then s == prefix
    else if |s| > |prefix| then
      if prefix != "" && prefix[|prefix| - 1] == '/' then HasPrefix(s, prefix)
      else s[|prefix|] == '/' && s[..|prefix|] == prefix
    else false
  }

  /** The place of the first "...", or the length. */
  function FirstDots(pattern: string): (i: nat)
    ensures i <= |pattern|
  {
    if pattern == "" || AtDots(pattern) then 0 else 1 + FirstDots(pattern[1..])
  }

  lemma {:induction false} FirstDotsIsFirst(pattern: string, k: nat)
    requires k <= FirstDots(pattern)
    ensures AtDots(pattern[k..]) <==> (k == FirstDots(pattern) && k < |pattern|)
  {
    if k == 0 {
      assert pattern[0..] == pattern;
    } else {
      FirstDotsIsFirst(pattern[1..], k - 1);
      assert pattern[k..] == pattern[1..][k - 1..];
    }
  }

  predicate TreeCanMatch(pattern: string, name: string) {
    var i := FirstDots(pattern);
    var fixed := pattern[..i];
    (|name| <= |fixed| && HasPathPrefix(fixed, name)) || (i < |pattern| && HasPrefix(name, fixed))
  }

  // ----- the test is complete -----

  /** a is name or a directory above it. */
  predicate Above(a: string, name: string) {
    && a != "" && a[|a| - 1] != '/'
    && (a == name || (|a| < |name| && name[..|a|] == a && name[|a|] == '/'))
  }

  function Literals(s: string): seq<Token> {
    seq(|s|, i requires 0 <= i < |s| => Literal(s[i]))
  }

  /** The tokens from the first "..." on. */
  function Rest(pattern: string): seq<Token> {
    if pattern == "" then []
    else if AtDots(pattern) then [Any] + Tokens(pattern[3..])
    else Rest(pattern[1..])
  }

  lemma {:induction false} TokensSplit(pattern: string)
    ensures Tokens(pattern) == Literals(pattern[..FirstDots(pattern)]) + Rest(pattern)
    ensures FirstDots(pattern) == |pattern| ==> Rest(pattern) == []
  {
    if pattern == "" || AtDots(pattern) {
      NoAppend(Rest(pattern));
    } else {
      TokensSplit(pattern[1..]);
      Assoc([Literal(pattern[0])], Literals(pattern[1..][..FirstDots(pattern[1..])]), Rest(pattern[1..]));
    }
  }

  /** A name that matches leading literals starts with them. */
  lemma {:induction false} MatchStartsWith(s: string, rest: seq<Token>, name: string)
    requires MatchTokens(Literals(s) + rest, name)
    ensures HasPrefix(name, s) && MatchTokens(rest, name[|s|..])
  {
    if s == "" {
      assert Literals(s) + rest == rest && name[0..] == name;
    } else {
      var ts := Literals(s) + rest;
      assert ts[0] == Literal(s[0]) && ts[1..] == Literals(s[1..]) + rest;
      MatchStartsWith(s[1..], rest, name[1..]);
      assert name[1..][|s| - 1..] == name[|s|..];
      assert name[..|s|] == [name[0]] + name[1..][..|s| - 1];
      assert s == [s[0]] + s[1..];
    }
  }

  lemma {:induction false} LiteralsOfAppend(s: string, rest: seq<Token>, name: string)
    ensures MatchTokens(Literals(s) + rest, name) <==> HasPrefix(name, s) && MatchTokens(rest, name[|s|..])
  {
    if MatchTokens(Literals(s) + rest, name) {
      MatchStartsWith(s, rest, name);
    }
    if HasPrefix(name, s) && MatchTokens(rest, name[|s|..]) {
      LiteralsMatch(s, rest, name[|s|..]);
      assert s + name[|s|..] == name;
    }
  }

  /** A pattern without "..." matches itself alone. */
  lemma PlainPatternMatchesItself(pattern: string, name: string)
    requires FirstDots(pattern) == |pattern|
    ensures Match(pattern, name) <==> name == pattern
  {
    TokensSplit(pattern);
    assert pattern[..|pattern|] == pattern;
    assert Tokens(pattern) == Literals(pattern) + [];
    LiteralsOfAppend(pattern, [], name);
  }

  /** foo/... matches foo and what is below it, and nothing else. */
  lemma TreePatternMatchesTree(root: string, name: string)
    requires FirstDots(root + "/...") == |root| + 1
    ensures Match(root + "/...", name) <==>
      name == root || (HasPrefix(name, root + "/") && '\n' !in name[|root| + 1..])
  {
    var pattern, fixed := root + "/...", root + "/";
    TreeTokens(root);
    var ts := Tokens(pattern);
    assert ts[..|ts| - 2] == Literals(root) + [];
    LiteralsOfAppend(fixed, [Any], name);
    LiteralsOfAppend(root, [], name);
    if HasPrefix(name, fixed) {
      AnyMatchesLine(name[|fixed|..]);
    }
  }

  lemma TreeTokens(root: string)
    requires FirstDots(root + "/...") == |root| + 1
    ensures var ts := Tokens(root + "/...");
      ts == Literals(root + "/") + [Any] && ts == Literals(root) + [Literal('/'), Any] && EndsInTree(ts)
  {
    TreeParts(root);
    TokensAtDots(root + "/...", root + "/", "...");
    DotsAreAny();
    LiteralsOfTree(root);
    TreeEnds(Literals(root));
  }

  lemma TokensAtDots(pattern: string, fixed: string, rest: string)
    requires pattern[..FirstDots(pattern)] == fixed && pattern[FirstDots(pattern)..] == rest
    ensures Tokens(pattern) == Literals(fixed) + Tokens(rest)
  {
    TokensSplit(pattern);
    RestIsTokens(pattern);
  }

  lemma TreeEnds(ts: seq<Token>)
    ensures ts + [Literal('/')] + [Any] == ts + [Literal('/'), Any] && EndsInTree(ts + [Literal('/'), Any])
  {
  }

  lemma TreeParts(root: string)
    ensures var pattern := root + "/..."; pattern[..|root| + 1] == root + "/" && pattern[|root| + 1..] == "..."
  {
  }

  lemma DotsAreAny()
    ensures Tokens("...") == [Any]
  {
    assert AtDots("...") && "..."[3..] == "";
    assert Tokens("...") == [Any] + Tokens("");
  }

  lemma LiteralsOfTree(root: string)
    ensures Literals(root + "/") == Literals(root) + [Literal('/')]
  {
  }

  lemma {:induction false} RestIsTokens(pattern: string)
    ensures Rest(pattern) == Tokens(pattern[FirstDots(pattern)..])
  {
    if pattern == "" || AtDots(pattern) {
      assert pattern[0..] == pattern;
    } else {
      RestIsTokens(pattern[1..]);
      assert pattern[1..][FirstDots(pattern[1..])..] == pattern[FirstDots(pattern)..];
    }
  }

  lemma AnyMatchesLine(text: string)
    ensures MatchTokens([Any], text) <==> '\n' !in text
  {
    assert [Any][1..] == [];
    assert text[..|text|] == text && text[|text|..] == "";
    forall k | 0 <= k <= |text| && MatchTokens([], text[k..]) ensures k == |text| {
      assert text[k..] == "";
    }
  }

  /** A name that matches begins with the text before the first "...", or is that
      text without its final slash. */
  lemma MatchNeedsFixedText(pattern: string, name: string)
    requires Match(pattern, name)
    ensures var fixed := pattern[..FirstDots(pattern)];
      && (FirstDots(pattern) == |pattern| ==> name == fixed)
      && (HasPrefix(name, fixed) || fixed == name + "/")
  {
    TokensSplit(pattern);
    TokensNeedFixedText(pattern[..FirstDots(pattern)], Rest(pattern), name);
  }

  lemma TokensNeedFixedText(fixed: string, rest: seq<Token>, name: string)
    requires var ts := Literals(fixed) + rest;
      MatchTokens(ts, name) || (EndsInTree(ts) && MatchTokens(ts[..|ts| - 2], name))
    ensures rest == [] ==> name == fixed
    ensures HasPrefix(name, fixed) || fixed == name + "/"
  {
    if MatchTokens(Literals(fixed) + rest, name) {
      MatchStartsWith(fixed, rest, name);
    } else {
      TreeMatchNeedsFixedText(fixed, rest, name);
    }
  }

  lemma TreeMatchNeedsFixedText(fixed: string, rest: seq<Token>, name: string)
    requires var ts := Literals(fixed) + rest; EndsInTree(ts) && MatchTokens(ts[..|ts| - 2], name)
    ensures rest != [] && (HasPrefix(name, fixed) || fixed == name + "/")
  {
    var ts := Literals(fixed) + rest;
    assert forall k :: 0 <= k < |fixed| ==> ts[k].Literal?;
    if |rest| >= 2 {
      assert ts[..|ts| - 2] == Literals(fixed) + rest[..|rest| - 2];
      MatchStartsWith(fixed, rest[..|rest| - 2], name);
    } else {
      var short := fixed[..|fixed| - 1];
      assert ts[|ts| - 2] == Literal(fixed[|fixed| - 1]);
      assert ts[..|ts| - 2] == Literals(short) + [];
      MatchStartsWith(short, [], name);
      assert fixed == short + "/";
      assert name[..|short|] == name;
    }
  }

  /** If a path matches, the walk can match it in its directory and in every
      directory above, so pruning loses no package. */
  lemma PruningIsComplete(pattern: string, name: string, a: string)
    requires Match(pattern, name) && Above(a, name)
    ensures TreeCanMatch(pattern, a)
  {
    var i := FirstDots(pattern);
    var fixed := pattern[..i];
    MatchNeedsFixedText(pattern, name);
    if |a| < |fixed| {
      if HasPrefix(name, fixed) {
        assert fixed[..|a|] == name[..|fixed|][..|a|] == name[..|a|] == a;
        assert a != name;
        assert fixed[|a|] == name[|a|];
      } else {
        assert fixed[..|a|] == name[..|a|] == a;
        assert fixed[|a|] == '/';
      }
    } else if i < |pattern| && HasPrefix(name, fixed) {
      assert a[..|fixed|] == name[..|a|][..|fixed|];
    }
  }

  // ----- and tight -----

  /** The shortest text the tokens match. */
  function Shortest(ts: seq<Token>): string {
    if ts == [] then "" else (if ts[0].Literal? then [ts[0].c] else "") + Shortest(ts[1..])
  }

  lemma {:induction false} ShortestMatches(ts: seq<Token>)
    ensures MatchTokens(ts, Shortest(ts))
  {
    if ts != [] {
      ShortestMatches(ts[1..]);
      var name := Shortest(ts);
      if ts[0].Literal? {
        assert name[1..] == Shortest(ts[1..]);
      } else {
        assert name[0..] == name && name[..0] == "";
      }
    }
  }

  lemma {:induction false} LiteralsMatch(s: string, rest: seq<Token>, tail: string)
    requires MatchTokens(rest, tail)
    ensures MatchTokens(Literals(s) + rest, s + tail)
  {
    if s == "" {
      assert Literals(s) + rest == rest && s + tail == tail;
    } else {
      LiteralsMatch(s[1..], rest, tail);
      var ts := Literals(s) + rest;
      assert ts[0] == Literal(s[0]) && ts[1..] == Literals(s[1..]) + rest;
      assert (s + tail)[1..] == s[1..] + tail;
    }
  }

  lemma AnyMatches(rest: seq<Token>, skipped: string, tail: string)
    requires '\n' !in skipped && MatchTokens(rest, tail)
    ensures MatchTokens([Any] + rest, skipped + tail)
  {
    var ts, name := [Any] + rest, skipped + tail;
    assert ts[1..] == rest && name[|skipped|..] == tail && name[..|skipped|] == skipped;
  }

  /** A directory below the fixed text: skip the rest of it and one slash. */
  lemma ReachedBelow(fixed: string, rest: seq<Token>, a: string) returns (name: string)
    requires HasPrefix(a, fixed) && rest != [] && rest[0] == Any && '\n' !in a
    ensures MatchTokens(Literals(fixed) + rest, name) && a + "/" <= name
  {
    var skipped, tail := a[|fixed|..] + "/", Shortest(rest[1..]);
    ShortestMatches(rest[1..]);
    AnyMatches(rest[1..], skipped, tail);
    assert [Any] + rest[1..] == rest;
    LiteralsMatch(fixed, rest, skipped + tail);
    name := fixed + (skipped + tail);
    assert a == fixed + a[|fixed|..];
    Assoc(a, "/", tail);
    assert name == a + "/" + tail;
  }

  /** A directory above the end of the fixed text: go on as it does. */
  lemma ReachedAbove(fixed: string, rest: seq<Token>, a: string) returns (name: string)
    requires HasPathPrefix(fixed, a) && a != "" && a[|a| - 1] != '/' && (|a| == |fixed| ==> rest == [])
    ensures MatchTokens(Literals(fixed) + rest, name) && Above(a, name)
  {
    ShortestMatches(rest);
    LiteralsMatch(fixed, rest, Shortest(rest));
    name := fixed + Shortest(rest);
    assert |a| < |fixed| ==> name[..|a|] == fixed[..|a|] && name[|a|] == fixed[|a|];
  }

  /** A directory the test lets through has a path at or below it that matches. */
  lemma ReachedForAReason(pattern: string, a: string) returns (name: string)
    requires TreeCanMatch(pattern, a) && a != "" && a[|a| - 1] != '/' && '\n' !in a
    ensures Above(a, name) && Match(pattern, name)
  {
    TokensSplit(pattern);
    RestStartsWithDots(pattern);
    var i := FirstDots(pattern);
    if i < |pattern| && HasPrefix(a, pattern[..i]) {
      name := ReachedBelow(pattern[..i], Rest(pattern), a);
    } else {
      name := ReachedAbove(pattern[..i], Rest(pattern), a);
    }
  }

  lemma {:induction false} RestStartsWithDots(pattern: string)
    ensures FirstDots(pattern) < |pattern| ==> Rest(pattern) != [] && Rest(pattern)[0] == Any
    ensures FirstDots(pattern) == |pattern| ==> Rest(pattern) == []
  {
    if pattern != "" && !AtDots(pattern) {
      RestStartsWithDots(pattern[1..]);
    }
  }

  /** The test is exact: it holds of a directory if and only if some path at or
      below the directory matches the pattern. */
  lemma TreeTestIsExact(pattern: string, a: string)
    requires a != "" && a[|a| - 1] != '/' && '\n' !in a
    ensures TreeCanMatch(pattern, a) <==> exists name :: Above(a, name) && Match(pattern, name)
  {
    if TreeCanMatch(pattern, a) {
      var name := ReachedForAReason(pattern, a);
    }
    forall name | Above(a, name) && Match(pattern, name) ensures TreeCanMatch(pattern, a) {
      PruningIsComplete(pattern, name, a);
    }
  }
}
