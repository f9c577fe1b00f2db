/** The text of cache keys and of the patterns that flush one tool. */
module CacheKeys {
  import opened Common
  import opened GlobPattern

  /** A part of a key behind the tool name: no separator of keys or paths. */
  predicate IsPart(s: string) {
    Lacks(s, ':') && Lacks(s, '/')
  }

  /** The roles that tokens may carry. */
  predicate IsRole(role: string) {
    && 1 <= |role| <= 64 && 'a' <= role[0] <= 'z'
    && forall i :: 0 <= i < |role| ==> 'a' <= role[i] <= 'z' || '0' <= role[i] <= '9' || role[i] == '_' || role[i] == '-'
  }

  /** Who shares a cached response: everybody for a read-only tool, otherwise the role. */
  function RoleScope(role: string, isReadOnly: bool): string {
    if isReadOnly then "shared" else if role == "" then "anonymous" else role
  }

  lemma ScopesAreParts(role: string, isReadOnly: bool)
    requires role == "" || IsRole(role)
    ensures IsPart(RoleScope(role, isReadOnly))
  {
  }

  /** Callers share the responses of a tool that is not read-only exactly if they have one
      role; a role called "anonymous" counts as none. */
  lemma ScopesCoincideExactly(a: string, b: string, isReadOnly: bool)
    ensures RoleScope(a, isReadOnly) == RoleScope(b, isReadOnly) <==>
            isReadOnly || a == b || (a in {"", "anonymous"} && b in {"", "anonymous"})
    ensures isReadOnly ==> RoleScope(a, isReadOnly) == "shared"
  {
  }

  function KeyTail(revision: string, scope: string, hash: string): string {
    if revision == "" then scope + ":" + hash else revision + ":" + scope + ":" + hash
  }

  function KeyText(tool: string, revision: string, scope: string, hash: string): string {
    "exact:" + tool + ":" + KeyTail(revision, scope, hash)
  }

  function FlushPattern(tool: string): string {
    "exact:" + tool + ":*"
  }

  /** A key cut inside the tool name. */
  lemma KeyCut(stem: string, more: string, revision: string, scope: string, hash: string)
    ensures KeyText(stem + more, revision, scope, hash) == ("exact:" + stem) + (more + (":" + KeyTail(revision, scope, hash)))
  {
  }

  lemma PatternCut(stem: string, more: string)
    ensures FlushPattern(stem + more) == ("exact:" + stem) + (more + ":*")
  {
  }

  lemma KeyInParts(tool: string, revision: string, scope: string, hash: string)
    requires revision != ""
    ensures KeyText(tool, revision, scope, hash) == (("exact:" + tool) + ":" + revision) + ":" + scope + ":" + hash
  {
  }

  // ----- Keys ----------------------------------------------------------------------------

  /** Two texts cut at their last colon agree in both parts if they agree. */
  lemma CutAtLastColon(a: string, b: string, c: string, d: string)
    requires Lacks(b, ':') && Lacks(d, ':')
    requires a + ":" + b == c + ":" + d
    ensures a == c && b == d
  {
    var l := a + ":" + b;
    assert l[|a|] == ':' && l[|c|] == ':';
    assert forall i :: |a| < i < |l| ==> l[i] == b[i - |a| - 1];
    assert forall i :: |c| < i < |l| ==> l[i] == d[i - |c| - 1];
    assert |a| == |c|;
    assert a == l[..|a|] == c && b == l[|a| + 1..] == d;
  }

  /** Keys of a revision never collide, whatever the tool is called: a response is found only
      under its own tool, revision, scope and arguments. */
  lemma KeysAreDistinct(
    tool: string, revision: string, scope: string, hash: string,
    tool': string, revision': string, scope': string, hash': string)
    requires IsPart(revision) && IsPart(scope) && IsPart(hash) && revision != ""
    requires IsPart(revision') && IsPart(scope') && IsPart(hash') && revision' != ""
    requires KeyText(tool, revision, scope, hash) == KeyText(tool', revision', scope', hash')
    ensures tool == tool' && revision == revision' && scope == scope' && hash == hash'
  {
    var head, head' := "exact:" + tool, "exact:" + tool';
    var inner, inner' := head + ":" + revision, head' + ":" + revision';
    KeyInParts(tool, revision, scope, hash);
    KeyInParts(tool', revision', scope', hash');
    CutAtLastColon(inner + ":" + scope, hash, inner' + ":" + scope', hash');
    CutAtLastColon(inner, scope, inner', scope');
    CutAtLastColon(head, revision, head', revision');
    assert tool == head[6..] && tool' == head'[6..];
  }

  // ----- Flushing ------------------------------------------------------------------------

  /** For a literal name the flush reaches exactly the keys that begin with it and have no
      slash behind it. */
  lemma LiteralFlushReaches(tool: string, key: string)
    requires Literal(tool)
    ensures var prefix := "exact:" + tool + ":";
            Match(FlushPattern(tool), key) == Some(prefix <= key && Lacks(key[|prefix|..], '/'))
  {
    var prefix := "exact:" + tool + ":";
    assert FlushPattern(tool) == prefix + "*";
    LiteralStarMatches(prefix, key);
  }

  lemma TailIsFlat(revision: string, scope: string, hash: string)
    requires IsPart(revision) && IsPart(scope) && IsPart(hash)
    ensures Lacks(KeyTail(revision, scope, hash), '/')
  {
  }

  /** A literal name reaches all keys of its tool. */
  lemma LiteralFlushReachesItsTool(tool: string, revision: string, scope: string, hash: string)
    requires Literal(tool) && IsPart(revision) && IsPart(scope) && IsPart(hash)
    ensures Match(FlushPattern(tool), KeyText(tool, revision, scope, hash)) == Some(true)
  {
    var prefix, key := "exact:" + tool + ":", KeyText(tool, revision, scope, hash);
    LiteralFlushReaches(tool, key);
    TailIsFlat(revision, scope, hash);
    assert key[|prefix|..] == KeyTail(revision, scope, hash);
  }

  lemma ColonEndsName(t: string, u: string, rest: string)
    requires Lacks(t, ':') && Lacks(u, ':')
    ensures t + ":" <= u + ":" + rest <==> t == u
  {
    var k := u + ":" + rest;
    assert k[|u|] == ':';
    assert forall i :: 0 <= i < |u| ==> k[i] == u[i];
    if t + ":" <= k {
      assert forall i :: 0 <= i < |t| ==> k[i] == t[i];
      assert k[|t|] == (t + ":")[|t|] == ':';
      assert |t| == |u|;
      assert t == k[..|t|] == u;
    }
  }

  lemma SamePrefix(head: string, a: string, b: string)
    ensures head + a <= head + b <==> a <= b
  {
    if head + a <= head + b {
      assert forall i :: 0 <= i < |a| ==> (head + a)[|head| + i] == a[i] && (head + b)[|head| + i] == b[i];
    }
  }

  lemma PrefixIsName(tool: string, other: string, revision: string, scope: string, hash: string)
    requires Lacks(tool, ':') && Lacks(other, ':')
    ensures "exact:" + tool + ":" <= KeyText(other, revision, scope, hash) <==> tool == other
  {
    var tail := KeyTail(revision, scope, hash);
    assert KeyText(other, revision, scope, hash) == "exact:" + (other + ":" + tail);
    assert "exact:" + tool + ":" == "exact:" + (tool + ":");
    SamePrefix("exact:", tool + ":", other + ":" + tail);
    ColonEndsName(tool, other, tail);
  }

  /** Among names without colons a literal one reaches exactly the keys of its own tool. */
  lemma FlushReachesExactlyItsTool(tool: string, other: string, revision: string, scope: string, hash: string)
    requires Literal(tool) && Lacks(tool, ':') && Lacks(other, ':')
    requires IsPart(revision) && IsPart(scope) && IsPart(hash)
    ensures Match(FlushPattern(tool), KeyText(other, revision, scope, hash)) == Some(tool == other)
  {
    if tool == other {
      LiteralFlushReachesItsTool(tool, revision, scope, hash);
    } else {
      var key := KeyText(other, revision, scope, hash);
      LiteralFlushReaches(tool, key);
      PrefixIsName(tool, other, revision, scope, hash);
    }
  }

  // ----- Names that are not literal ------------------------------------------------------

  lemma TermsOfColonStar()
    ensures Terms(":*") == Some([Exactly(':'), Star])
  {
    TermsOfStar();
    assert ":*"[1..] == "*" && [Exactly(':')] + [Star] == [Exactly(':'), Star];
  }

  lemma TermsOfBracketName()
    ensures Terms("[b]:*") == Some([Class(false, [Range('b', 'b')]), Exactly(':'), Star])
  {
    var p, range := "[b]:*", Range('b', 'b');
    TermsOfColonStar();
    assert p[1..] == "b]:*" && "b]:*"[1..] == "]:*" && "]:*"[1..] == ":*";
    assert OneRange("b]:*") == Some((range, "]:*"));
    assert Ranges("]:*", true) == Some(([], ":*")) && [range] + [] == [range];
    assert Ranges("b]:*", false) == Some(([range], ":*"));
    assert Terms(p) == Prefixed(Class(false, [range]), Terms(":*"));
    assert [Class(false, [range])] + [Exactly(':'), Star] == [Class(false, [range]), Exactly(':'), Star];
  }

  /** Where a name turns from literal to not, the rest decides whether its keys are missed. */
  lemma RestDecides(stem: string, more: string, revision: string, scope: string, hash: string)
    requires Literal(stem) && Match(more + ":*", more + (":" + KeyTail(revision, scope, hash))) == Some(false)
    ensures Match(FlushPattern(stem + more), KeyText(stem + more, revision, scope, hash)) == Some(false)
  {
    var head, behind := "exact:" + stem, more + (":" + KeyTail(revision, scope, hash));
    MatchAfterLiteral(head, more + ":*", head + behind);
    assert (head + behind)[|head|..] == behind;
    PatternCut(stem, more);
    KeyCut(stem, more, revision, scope, hash);
  }

  lemma ClassRefusesBracket(s: string)
    requires s != "" && s[0] == '['
    ensures Match("[b]:*", s) == Some(false)
  {
    TermsOfBracketName();
    var terms := Terms("[b]:*").value;
    assert Chunk(terms)[0] == terms[0];
  }

  /** The flush of a tool whose name ends with "[b]" reads the brackets as a choice and so
      misses every key of that tool, without an error. */
  lemma BracketNameMissesItsKeys(stem: string, revision: string, scope: string, hash: string)
    requires Literal(stem)
    ensures Match(FlushPattern(stem + "[b]"), KeyText(stem + "[b]", revision, scope, hash)) == Some(false)
  {
    assert "[b]" + ":*" == "[b]:*";
    ClassRefusesBracket("[b]" + (":" + KeyTail(revision, scope, hash)));
    RestDecides(stem, "[b]", revision, scope, hash);
  }

  /** A name with an unclosed bracket has a malformed flush pattern, which every key makes
      an error of. */
  lemma UnclosedBracketIsMalformed(key: string)
    ensures Match(FlushPattern("a["), key).None?
  {
    var head := "exact:" + "a";
    assert "a[" == "a" + "[";
    assert FlushPattern("a[") == head + "[:*";
    var p := "[:*";
    assert p[1..] == ":*" && ":*"[1..] == "*";
    assert OneRange(":*") == Some((Range(':', ':'), "*"));
    assert OneRange("*").None? && Ranges("*", true).None?;
    assert Ranges(":*", false).None? && Terms(p).None?;
    MatchAfterLiteral(head, p, key);
  }

  const STAR_COLON_STAR := [Star, Exactly(':'), Star]

  lemma StarsFitAroundColon(more: string, tail: string)
    requires Lacks(more, '/') && Lacks(tail, '/')
    ensures Fits(STAR_COLON_STAR, more + (":" + tail))
  {
    var terms, behind := STAR_COLON_STAR, ":" + tail;
    StarsTakeAll([Star], tail);
    assert terms[1..] == [Exactly(':'), Star] && terms[1..][1..] == [Star] && behind[1..] == tail;
    assert Fits(terms[1..], behind);
    assert (more + behind)[..|more|] == more && (more + behind)[|more|..] == behind;
    StarAbsorbs(terms, more + behind, |more|);
  }

  lemma TermsOfStarColonStar()
    ensures Terms("*:*") == Some(STAR_COLON_STAR)
  {
    TermsOfColonStar();
    assert "*:*"[1..] == ":*" && [Star] + [Exactly(':'), Star] == STAR_COLON_STAR;
  }

  lemma StarReaches(head: string, behind: string)
    requires Literal(head) && Fits(STAR_COLON_STAR, behind)
    ensures Match(head + "*:*", head + behind) == Some(true)
  {
    TermsOfStarColonStar();
    MatchAfterLiteral(head, "*:*", head + behind);
    assert (head + behind)[|head|..] == behind;
    assert STAR_COLON_STAR[1..] == [Exactly(':'), Star] && STAR_COLON_STAR[1..][1..] == [Star];
    MatcherIsExact(STAR_COLON_STAR, behind);
  }

  /** The flush of a name with a star behind reaches every tool whose name begins like it. */
  lemma StarInNameOverreaches(stem: string, more: string, revision: string, scope: string, hash: string)
    requires Literal(stem) && Lacks(more, '/') && IsPart(revision) && IsPart(scope) && IsPart(hash)
    ensures Match(FlushPattern(stem + "*"), KeyText(stem + more, revision, scope, hash)) == Some(true)
  {
    var head, tail := "exact:" + stem, KeyTail(revision, scope, hash);
    TailIsFlat(revision, scope, hash);
    StarsFitAroundColon(more, tail);
    StarReaches(head, more + (":" + tail));
    PatternCut(stem, "*");
    KeyCut(stem, more, revision, scope, hash);
    assert "*" + ":*" == "*:*";
  }

  /** The flush of a tool reaches every tool whose name goes on with a colon. */
  lemma ColonInNameOverreaches(stem: string, more: string, revision: string, scope: string, hash: string)
    requires Literal(stem) && Lacks(more, '/') && IsPart(revision) && IsPart(scope) && IsPart(hash)
    ensures Match(FlushPattern(stem), KeyText(stem + ":" + more, revision, scope, hash)) == Some(true)
  {
    var prefix, key := "exact:" + stem + ":", KeyText(stem + ":" + more, revision, scope, hash);
    var behind := more + (":" + KeyTail(revision, scope, hash));
    TailIsFlat(revision, scope, hash);
    assert key == prefix + behind;
    LiteralFlushReaches(stem, key);
    assert key[|prefix|..] == behind;
  }

  // ----- Classes that admit a slash ------------------------------------------------------

  const SLASHED := "*[/[]*"
  const SLASHED_CLASS := Class(false, [Range('/', '/'), Range('[', '[')])

  lemma TermsOfSlashed()
    ensures Terms(SLASHED + ":*") == Some([Star, SLASHED_CLASS] + STAR_COLON_STAR)
  {
    var p := "[/[]*:*";
    TermsOfStarColonStar();
    assert OneRange("/[]*:*") == Some((Range('/', '/'), "[]*:*"));
    assert OneRange("[]*:*") == Some((Range('[', '['), "]*:*"));
    assert Ranges("]*:*", true) == Some(([], "*:*")) && [Range('[', '[')] + [] == [Range('[', '[')];
    assert [Range('/', '/')] + [Range('[', '[')] == SLASHED_CLASS.ranges;
    assert Ranges("[]*:*", true) == Some(([Range('[', '[')], "*:*"));
    assert Ranges("/[]*:*", false) == Some(([Range('/', '/'), Range('[', '[')], "*:*"));
    assert p[1..] == "/[]*:*" && Terms(p) == Prefixed(SLASHED_CLASS, Terms("*:*"));
    assert (SLASHED + ":*")[1..] == p;
    assert [Star] + ([SLASHED_CLASS] + STAR_COLON_STAR) == [Star, SLASHED_CLASS] + STAR_COLON_STAR;
  }

  /** The matcher settles on the bracket, and no star goes past the slash behind it. */
  lemma SlashedIsRefused(tail: string)
    ensures !Accepts([Star, SLASHED_CLASS] + STAR_COLON_STAR, SLASHED + tail)
  {
    var terms, s := [Star, SLASHED_CLASS] + STAR_COLON_STAR, SLASHED + tail;
    var body := [SLASHED_CLASS] + STAR_COLON_STAR;
    var rest := s[2..];
    assert terms[1..] == body && SkipStars(terms) == body;
    assert body[1..] == STAR_COLON_STAR && Chunk(body) == [SLASHED_CLASS] && Behind(body) == STAR_COLON_STAR;
    BracketComesFirst(s);
    assert rest[0] == '/';
    ColonIsBarred(rest);
  }

  lemma BracketComesFirst(s: string)
    requires |s| >= 2 && s[0] == '*' && s[1] == '['
    ensures FirstPlace([SLASHED_CLASS], false, s) == Some(1)
  {
    assert SLASHED_CLASS.ranges[1].lo <= s[1] <= SLASHED_CLASS.ranges[1].hi;
    assert Admits(SLASHED_CLASS, s[1]);
    assert SLASHED_CLASS.ranges[0] == Range('/', '/') && SLASHED_CLASS.ranges[1] == Range('[', '[') && |SLASHED_CLASS.ranges| == 2;
    assert !Admits(SLASHED_CLASS, s[0]);
    assert [SLASHED_CLASS][1..] == [];
    assert Suits([SLASHED_CLASS], false, s[1..]) && !Suits([SLASHED_CLASS], false, s);
  }

  lemma ColonIsBarred(s: string)
    requires s != "" && s[0] == '/'
    ensures !Accepts(STAR_COLON_STAR, s)
  {
    var body := [Exactly(':'), Star];
    assert STAR_COLON_STAR[1..] == body && SkipStars(STAR_COLON_STAR) == body;
    assert body[1..] == [Star] && Chunk(body) == [Exactly(':')];
    assert FirstPlace([Exactly(':')], false, s).None?;
  }

  /** So the flush of such a tool misses its keys, which the pattern as it reads would fit. */
  lemma SlashedNameMissesItsKeys(stem: string, revision: string, scope: string, hash: string)
    requires Literal(stem)
    ensures Match(FlushPattern(stem + SLASHED), KeyText(stem + SLASHED, revision, scope, hash)) == Some(false)
  {
    TermsOfSlashed();
    SlashedIsRefused(":" + KeyTail(revision, scope, hash));
    RestDecides(stem, SLASHED, revision, scope, hash);
  }

  /** As it reads, the pattern fits them: the first star takes the star and the bracket, the
      class the slash. */
  lemma SlashedFits(tail: string)
    requires Lacks(tail, '/')
    ensures Fits([Star, SLASHED_CLASS] + STAR_COLON_STAR, SLASHED + (":" + tail))
  {
    var terms, rest := [Star, SLASHED_CLASS] + STAR_COLON_STAR, "/[]*" + (":" + tail);
    StarsFitAroundColon("[]*", tail);
    assert terms[1..][1..] == STAR_COLON_STAR && rest[1..] == "[]*" + (":" + tail);
    assert SLASHED_CLASS.ranges[0].lo <= rest[0] <= SLASHED_CLASS.ranges[0].hi;
    assert Admits(SLASHED_CLASS, rest[0]) && terms[1..][0] == SLASHED_CLASS;
    assert Fits(terms[1..], rest);
    var s := SLASHED + (":" + tail);
    assert s[2..] == rest && s[..2] == "*[" && rest[0..] == rest;
    assert Fits(terms, rest);
    StarAbsorbs(terms, s, 2);
  }

  /** Each restriction on the names matters: a star or a colon makes the flush reach another
      tool, a pair of brackets makes it miss its own, whether they hold a slash or not. */
  lemma FlushMissesItsAim(stem: string, more: string, revision: string, scope: string, hash: string)
    requires Literal(stem) && Lacks(more, '/') && IsPart(revision) && IsPart(scope) && IsPart(hash)
    ensures Match(FlushPattern(stem + "*"), KeyText(stem + more, revision, scope, hash)) == Some(true)
    ensures Match(FlushPattern(stem), KeyText(stem + ":" + more, revision, scope, hash)) == Some(true)
    ensures Match(FlushPattern(stem + "[b]"), KeyText(stem + "[b]", revision, scope, hash)) == Some(false)
    ensures Match(FlushPattern(stem + SLASHED), KeyText(stem + SLASHED, revision, scope, hash)) == Some(false)
  {
    StarInNameOverreaches(stem, more, revision, scope, hash);
    ColonInNameOverreaches(stem, more, revision, scope, hash);
    BracketNameMissesItsKeys(stem, revision, scope, hash);
    SlashedNameMissesItsKeys(stem, revision, scope, hash);
  }
}
