/** The path-style pattern language of cache scans: its grammar and what a pattern fits. */
module GlobPattern {
  import opened Common

  datatype Range = Range(lo: char, hi: char)

  datatype Term = Star | AnyOne | Exactly(c: char) | Class(negated: bool, ranges: seq<Range>)

  predicate Lacks(s: string, c: char) {
    c !in s
  }

  /** No character the pattern language gives a meaning to. */
  predicate Literal(s: string) {
    Lacks(s, '*') && Lacks(s, '?') && Lacks(s, '[') && Lacks(s, '\\')
  }

  // ----- Reading a pattern ---------------------------------------------------------------

  /** One end of a range inside brackets, which cannot be the last thing in a pattern. */
  function RangeEnd(p: string): (r: Option<(char, string)>)
    ensures r.Some? ==> 0 < |r.value.1| < |p|
  {
    if p == "" || p[0] == '-' || p[0] == ']' then None
    else
      var q := if p[0] == '\\' then p[1..] else p;
      if |q| <= 1 then None else Some((q[0], q[1..]))
  }

  function OneRange(p: string): (r: Option<(Range, string)>)
    ensures r.Some? ==> |r.value.1| < |p|
  {
    var lo := RangeEnd(p);
    if lo.None? then None
    else if lo.value.1[0] != '-' then Some((Range(lo.value.0, lo.value.0), lo.value.1))
    else
      var hi := RangeEnd(lo.value.1[1..]);
      if hi.None? then None else Some((Range(lo.value.0, hi.value.0), hi.value.1))
  }

  /** The ranges up to the closing bracket, at least one. */
  function Ranges(p: string, found: bool): (r: Option<(seq<Range>, string)>)
    ensures r.Some? ==> |r.value.1| < |p|
    decreases |p|
  {
    if found && p != "" && p[0] == ']' then Some(([], p[1..]))
    else
      var one := OneRange(p);
      if one.None? then None
      else
        var more := Ranges(one.value.1, true);
        if more.None? then None else Some(([one.value.0] + more.value.0, more.value.1))
  }

  function Prefixed(t: Term, terms: Option<seq<Term>>): Option<seq<Term>> {
    if terms.None? then None else Some([t] + terms.value)
  }

  /** The terms of a pattern; none if it is malformed. */
  function Terms(p: string): Option<seq<Term>>
    decreases |p|
  {
    if p == "" then Some([])
    else if p[0] == '*' then Prefixed(Star, Terms(p[1..]))
    else if p[0] == '?' then Prefixed(AnyOne, Terms(p[1..]))
    else if p[0] == '\\' then if |p| == 1 then None else Prefixed(Exactly(p[1]), Terms(p[2..]))
    else if p[0] == '[' then
      var negated := |p| > 1 && p[1] == '^';
      var ranges := Ranges(if negated then p[2..] else p[1..], false);
      if ranges.None? then None else Prefixed(Class(negated, ranges.value.0), Terms(ranges.value.1))
    else Prefixed(Exactly(p[0]), Terms(p[1..]))
  }

  // ----- Fitting a text ------------------------------------------------------------------

  predicate Admits(t: Term, c: char) {
    match t
    case Star => false
    case AnyOne => c != '/'
    case Exactly(x) => c == x
    case Class(negated, ranges) => negated != exists i :: 0 <= i < |ranges| && ranges[i].lo <= c <= ranges[i].hi
  }

  /** A star stands for any text without a slash. */
  predicate Fits(terms: seq<Term>, s: string)
    decreases |terms| + |s|
  {
    if terms == [] then s == ""
    else if terms[0].Star? then Fits(terms[1..], s) || (s != "" && s[0] != '/' && Fits(terms, s[1..]))
    else s != "" && Admits(terms[0], s[0]) && Fits(terms[1..], s[1..])
  }

  // ----- The matcher ---------------------------------------------------------------------

  /** The terms up to the first star. */
  function Chunk(terms: seq<Term>): (chunk: seq<Term>)
    ensures |chunk| <= |terms| && (|chunk| < |terms| ==> terms[|chunk|].Star?)
    ensures terms != [] && !terms[0].Star? ==> chunk != []
  {
    if terms == [] || terms[0].Star? then [] else [terms[0]] + Chunk(terms[1..])
  }

  function Behind(terms: seq<Term>): seq<Term> {
    terms[|Chunk(terms)|..]
  }

  function SkipStars(terms: seq<Term>): (rest: seq<Term>)
    ensures |rest| <= |terms| && (rest != [] ==> !rest[0].Star?)
    ensures terms != [] && terms[0].Star? ==> |rest| < |terms|
  {
    if terms == [] || !terms[0].Star? then terms else SkipStars(terms[1..])
  }

  predicate Starts(chunk: seq<Term>, s: string): (r: bool)
    ensures r ==> |chunk| <= |s|
  {
    chunk == [] || (s != "" && Admits(chunk[0], s[0]) && Starts(chunk[1..], s[1..]))
  }

  /** The text begins with the chunk, and ends with it if nothing follows in the pattern. */
  predicate Suits(chunk: seq<Term>, last: bool, s: string) {
    Starts(chunk, s) && (last ==> |s| == |chunk|)
  }

  /** The leftmost place behind a star that suits the chunk. */
  function FirstPlace(chunk: seq<Term>, last: bool, s: string): (i: Option<nat>)
    ensures i.Some? ==> i.value + |chunk| <= |s|
  {
    if Suits(chunk, last, s) then Some(0)
    else if s == "" || s[0] == '/' then None
    else
      var later := FirstPlace(chunk, last, s[1..]);
      if later.None? then None else Some(later.value + 1)
  }

  /** What the matcher accepts: it takes chunk after chunk, each at its leftmost place, and
      never goes back to another one. */
  predicate Accepts(terms: seq<Term>, s: string)
    decreases |terms|
  {
    if terms == [] then s == ""
    else if terms[0].Star? then
      var body := SkipStars(terms);
      if body == [] then Lacks(s, '/')
      else
        var i := FirstPlace(Chunk(body), |Behind(body)| == 0, s);
        i.Some? && Accepts(Behind(body), s[i.value + |Chunk(body)|..])
    else Suits(Chunk(terms), |Behind(terms)| == 0, s) && Accepts(Behind(terms), s[|Chunk(terms)|..])
  }

  /** Whether a text matches; none if the pattern is malformed. */
  function Match(p: string, s: string): Option<bool> {
    var terms := Terms(p);
    if terms.None? then None else Some(Accepts(terms.value, s))
  }

  /** A place behind a star that suits the chunk. */
  predicate Place(chunk: seq<Term>, last: bool, s: string, i: nat) {
    i <= |s| && Suits(chunk, last, s[i..]) && Lacks(s[..i], '/')
  }

  lemma PlaceOneOn(chunk: seq<Term>, last: bool, s: string, i: nat)
    requires s != "" && i > 0
    ensures Place(chunk, last, s, i) <==> s[0] != '/' && Place(chunk, last, s[1..], i - 1)
  {
    if i <= |s| {
      assert s[i..] == s[1..][i - 1..] && s[..i] == [s[0]] + s[1..][..i - 1];
    }
  }

  lemma {:induction false} FirstPlaceIsFirst(chunk: seq<Term>, last: bool, s: string, j: nat)
    ensures var i := FirstPlace(chunk, last, s);
            && (i.Some? ==> Place(chunk, last, s, i.value))
            && (Place(chunk, last, s, j) ==> i.Some? && i.value <= j)
    decreases |s|
  {
    assert s[0..] == s;
    if !Suits(chunk, last, s) && s != "" {
      if s[0] != '/' {
        FirstPlaceIsFirst(chunk, last, s[1..], if j > 0 then j - 1 else 0);
        var later := FirstPlace(chunk, last, s[1..]);
        if later.Some? {
          PlaceOneOn(chunk, last, s, later.value + 1);
        }
      }
      if j > 0 {
        PlaceOneOn(chunk, last, s, j);
      }
    }
  }

  // ----- When committing to the leftmost place does no harm ------------------------------

  lemma {:induction false} FitsChunk(terms: seq<Term>, s: string)
    ensures Fits(terms, s) <==> Starts(Chunk(terms), s) && Fits(Behind(terms), s[|Chunk(terms)|..])
  {
    if terms == [] || terms[0].Star? {
      assert s[0..] == s && terms[0..] == terms;
    } else if s != "" {
      var chunk, later := Chunk(terms), Chunk(terms[1..]);
      FitsChunk(terms[1..], s[1..]);
      assert chunk[1..] == later && Behind(terms) == Behind(terms[1..]);
      assert |chunk| <= |s| ==> s[|chunk|..] == s[1..][|later|..];
    }
  }

  /** A star can always take more. */
  lemma {:induction false} StarAbsorbs(terms: seq<Term>, s: string, k: nat)
    requires terms != [] && terms[0].Star? && k <= |s| && Lacks(s[..k], '/') && Fits(terms, s[k..])
    ensures Fits(terms, s)
    decreases k
  {
    if k == 0 {
      assert s[0..] == s;
    } else {
      assert s[0] == s[..k][0] && s[1..][k - 1..] == s[k..];
      assert forall c :: c in s[1..][..k - 1] ==> c in s[..k];
      StarAbsorbs(terms, s[1..], k - 1);
    }
  }

  /** What a star takes, and what is left for the terms behind it. */
  lemma {:induction false} StarTakes(terms: seq<Term>, s: string) returns (k: nat)
    requires terms != [] && terms[0].Star? && Fits(terms, s)
    ensures k <= |s| && Lacks(s[..k], '/') && Fits(SkipStars(terms), s[k..])
    decreases |terms| + |s|
  {
    if Fits(terms[1..], s) {
      if |terms| > 1 && terms[1].Star? {
        k := StarTakes(terms[1..], s);
      } else {
        k := 0;
        assert s[0..] == s && SkipStars(terms[1..]) == terms[1..];
      }
    } else {
      var later := StarTakes(terms, s[1..]);
      k := later + 1;
      assert s[k..] == s[1..][later..] && s[..k] == [s[0]] + s[1..][..later];
    }
  }

  lemma {:induction false} StarGives(terms: seq<Term>, s: string, k: nat)
    requires terms != [] && terms[0].Star? && k <= |s| && Lacks(s[..k], '/') && Fits(SkipStars(terms), s[k..])
    ensures Fits(terms, s)
    decreases |terms|
  {
    if |terms| > 1 && terms[1].Star? {
      assert SkipStars(terms) == SkipStars(terms[1..]);
      StarGives(terms[1..], s, k);
    } else {
      assert SkipStars(terms[1..]) == terms[1..];
      assert Fits(terms, s[k..]);
      StarAbsorbs(terms, s, k);
    }
  }

  /** No class of characters admits a slash. */
  predicate Calm(terms: seq<Term>) {
    terms == [] || ((terms[0].Class? ==> !Admits(terms[0], '/')) && Calm(terms[1..]))
  }

  lemma {:induction false} StartsAt(chunk: seq<Term>, s: string, k: nat)
    requires Calm(chunk) && Starts(chunk, s) && k < |chunk|
    ensures Admits(chunk[k], s[k]) && (s[k] == '/' ==> chunk[k] == Exactly('/'))
  {
    if k > 0 {
      StartsAt(chunk[1..], s[1..], k - 1);
    }
  }

  /** A chunk found at two places with no slash between them has no slash in it: it would stand
      between the two in the end. */
  lemma {:induction false} NoSlashInside(chunk: seq<Term>, s: string, d: nat, k: nat)
    requires Calm(chunk) && 0 < d <= |s| && Lacks(s[..d], '/') && Starts(chunk, s) && Starts(chunk, s[d..])
    requires k < |chunk|
    ensures s[d + k] != '/'
    decreases k
  {
    StartsAt(chunk, s, k);
    StartsAt(chunk, s[d..], k);
    assert k < d ==> s[..d][k] == s[k];
    if k >= d {
      NoSlashInside(chunk, s, d, k - d);
    }
  }

  lemma BetweenPlaces(chunk: seq<Term>, s: string, d: nat)
    requires Calm(chunk) && d <= |s| && Lacks(s[..d], '/') && Starts(chunk, s) && Starts(chunk, s[d..])
    ensures d + |chunk| <= |s| && Lacks(s[|chunk|..|chunk| + d], '/')
  {
    assert d == 0 ==> s[d..] == s;
    forall k | |chunk| <= k < |chunk| + d ensures s[k] != '/' {
      if k < d {
        assert s[..d][k] == s[k];
      } else {
        NoSlashInside(chunk, s, d, k - d);
      }
    }
  }

  lemma {:induction false} CalmParts(terms: seq<Term>)
    requires Calm(terms)
    ensures Calm(SkipStars(terms)) && Calm(Chunk(terms)) && Calm(Behind(terms))
    decreases |terms|
  {
    if terms != [] {
      CalmParts(terms[1..]);
      assert !terms[0].Star? ==> Chunk(terms)[1..] == Chunk(terms[1..]) && Behind(terms) == Behind(terms[1..]);
    }
  }

  /** If the rest fits behind some place of the chunk, it fits behind the leftmost one. */
  lemma LeftmostIsAsGood(chunk: seq<Term>, rest: seq<Term>, s: string, i: nat, j: nat)
    requires Calm(chunk) && rest != [] && rest[0].Star? && i <= j <= |s| && Lacks(s[..j], '/')
    requires Starts(chunk, s[i..]) && Starts(chunk, s[j..]) && Fits(rest, s[j + |chunk|..])
    ensures Fits(rest, s[i + |chunk|..])
  {
    var t, d := s[i..], j - i;
    assert t[d..] == s[j..] && forall k :: 0 <= k < d ==> t[..d][k] == s[..j][i + k];
    BetweenPlaces(chunk, t, d);
    assert t[|chunk|..] == s[i + |chunk|..] && t[|chunk|..][d..] == s[j + |chunk|..];
    assert t[|chunk|..][..d] == t[|chunk|..|chunk| + d];
    StarAbsorbs(rest, t[|chunk|..], d);
  }

  lemma StarsTakeAll(terms: seq<Term>, s: string)
    requires terms != [] && terms[0].Star? && SkipStars(terms) == []
    ensures Fits(terms, s) <==> Lacks(s, '/')
  {
    if Fits(terms, s) {
      var k := StarTakes(terms, s);
      assert s[..k] == s;
    }
    if Lacks(s, '/') {
      assert s[..|s|] == s;
      StarGives(terms, s, |s|);
    }
  }

  lemma FitsBehindPlace(terms: seq<Term>, s: string, i: nat)
    requires terms != [] && terms[0].Star? && SkipStars(terms) != []
    requires var body := SkipStars(terms);
             FirstPlace(Chunk(body), |Behind(body)| == 0, s) == Some(i) && Fits(Behind(body), s[i + |Chunk(body)|..])
    ensures Fits(terms, s)
  {
    var body := SkipStars(terms);
    FirstPlaceIsFirst(Chunk(body), |Behind(body)| == 0, s, i);
    assert s[i..][|Chunk(body)|..] == s[i + |Chunk(body)|..];
    FitsChunk(body, s[i..]);
    StarGives(terms, s, i);
  }

  lemma {:induction false} AcceptedFits(terms: seq<Term>, s: string)
    requires Accepts(terms, s)
    ensures Fits(terms, s)
    decreases |terms|
  {
    if terms != [] && terms[0].Star? {
      var body := SkipStars(terms);
      if body == [] {
        StarsTakeAll(terms, s);
      } else {
        var i := FirstPlace(Chunk(body), |Behind(body)| == 0, s).value;
        AcceptedFits(Behind(body), s[i + |Chunk(body)|..]);
        FitsBehindPlace(terms, s, i);
      }
    } else if terms != [] {
      AcceptedFits(Behind(terms), s[|Chunk(terms)|..]);
      FitsChunk(terms, s);
    }
  }

  /** Behind the stars the matcher finds a place for the chunk, and the rest fits there. */
  lemma LeftmostPlaceFits(terms: seq<Term>, s: string) returns (i: nat)
    requires Calm(terms) && Fits(terms, s) && terms != [] && terms[0].Star? && SkipStars(terms) != []
    ensures var body := SkipStars(terms);
            && FirstPlace(Chunk(body), |Behind(body)| == 0, s) == Some(i)
            && Fits(Behind(body), s[i + |Chunk(body)|..])
  {
    CalmParts(terms);
    var body := SkipStars(terms);
    var chunk, rest := Chunk(body), Behind(body);
    CalmParts(body);
    var j := StarTakes(terms, s);
    FitsChunk(body, s[j..]);
    assert s[j..][|chunk|..] == s[j + |chunk|..];
    assert Place(chunk, |rest| == 0, s, j);
    FirstPlaceIsFirst(chunk, |rest| == 0, s, j);
    i := FirstPlace(chunk, |rest| == 0, s).value;
    if rest != [] {
      LeftmostIsAsGood(chunk, rest, s, i, j);
    }
  }

  lemma AcceptsBehindPlace(terms: seq<Term>, s: string, i: nat)
    requires terms != [] && terms[0].Star? && SkipStars(terms) != []
    requires var body := SkipStars(terms);
             FirstPlace(Chunk(body), |Behind(body)| == 0, s) == Some(i) && Accepts(Behind(body), s[i + |Chunk(body)|..])
    ensures Accepts(terms, s)
  {
  }

  lemma {:induction false} FittingIsAccepted(terms: seq<Term>, s: string)
    requires Calm(terms) && Fits(terms, s)
    ensures Accepts(terms, s)
    decreases |terms|
  {
    CalmParts(terms);
    if terms != [] && terms[0].Star? {
      var body := SkipStars(terms);
      if body == [] {
        StarsTakeAll(terms, s);
      } else {
        CalmParts(body);
        var i := LeftmostPlaceFits(terms, s);
        FittingIsAccepted(Behind(body), s[i + |Chunk(body)|..]);
        AcceptsBehindPlace(terms, s, i);
      }
    } else if terms != [] {
      FitsChunk(terms, s);
      FittingIsAccepted(Behind(terms), s[|Chunk(terms)|..]);
    }
  }

  /** The matcher accepts only what the pattern means, and all of it unless a class admits a
      slash. */
  lemma MatcherIsExact(terms: seq<Term>, s: string)
    ensures Accepts(terms, s) ==> Fits(terms, s)
    ensures Calm(terms) ==> (Accepts(terms, s) <==> Fits(terms, s))
  {
    if Accepts(terms, s) {
      AcceptedFits(terms, s);
    }
    if Calm(terms) && Fits(terms, s) {
      FittingIsAccepted(terms, s);
    }
  }

  // ----- Writing a pattern ---------------------------------------------------------------

  function WriteRanges(ranges: seq<Range>): string {
    if ranges == [] then "" else ['\\', ranges[0].lo, '-', '\\', ranges[0].hi] + WriteRanges(ranges[1..])
  }

  function WriteTerm(t: Term): string {
    match t
    case Star => "*"
    case AnyOne => "?"
    case Exactly(c) => ['\\', c]
    case Class(negated, ranges) => (if negated then "[^" else "[") + (WriteRanges(ranges) + "]")
  }

  function Write(terms: seq<Term>): string {
    if terms == [] then "" else WriteTerm(terms[0]) + Write(terms[1..])
  }

  predicate Writable(terms: seq<Term>) {
    terms == [] || ((terms[0].Class? ==> terms[0].ranges != []) && Writable(terms[1..]))
  }

  lemma OneRangeIsRead(r: Range, behind: string)
    requires behind != ""
    ensures OneRange(['\\', r.lo, '-', '\\', r.hi] + behind) == Some((r, behind))
  {
    var p := ['\\', r.lo, '-', '\\', r.hi] + behind;
    var q := ['\\', r.hi] + behind;
    assert p[1..][1..] == ['-'] + q && p[1..][1..][1..] == q;
    assert q[1..][1..] == behind;
  }

  lemma {:induction false} RangesAreRead(ranges: seq<Range>, rest: string, found: bool)
    requires found || ranges != []
    ensures Ranges(WriteRanges(ranges) + "]" + rest, found) == Some((ranges, rest))
    decreases |ranges|
  {
    var p := WriteRanges(ranges) + "]" + rest;
    if ranges == [] {
      assert p[1..] == rest;
    } else {
      var behind := WriteRanges(ranges[1..]) + "]" + rest;
      assert p == ['\\', ranges[0].lo, '-', '\\', ranges[0].hi] + behind;
      OneRangeIsRead(ranges[0], behind);
      RangesAreRead(ranges[1..], rest, true);
      assert [ranges[0]] + ranges[1..] == ranges;
    }
  }

  lemma ClassIsRead(negated: bool, ranges: seq<Range>, rest: string)
    requires ranges != []
    ensures Terms(WriteTerm(Class(negated, ranges)) + rest) == Prefixed(Class(negated, ranges), Terms(rest))
  {
    var p, inside := WriteTerm(Class(negated, ranges)) + rest, WriteRanges(ranges) + "]" + rest;
    RangesAreRead(ranges, rest, false);
    assert inside[0] == '\\';
    if negated {
      assert p[2..] == inside;
    } else {
      assert p[1..] == inside;
    }
  }

  lemma TermIsRead(t: Term, rest: string)
    requires t.Class? ==> t.ranges != []
    ensures Terms(WriteTerm(t) + rest) == Prefixed(t, Terms(rest))
  {
    match t
    case Class(negated, ranges) => ClassIsRead(negated, ranges, rest);
    case Exactly(c) => assert (['\\', c] + rest)[2..] == rest;
    case _ => assert (WriteTerm(t) + rest)[1..] == rest;
  }

  /** Every list of terms has a pattern that reads as that list. */
  lemma {:induction false} WrittenIsRead(terms: seq<Term>)
    requires Writable(terms)
    ensures Terms(Write(terms)) == Some(terms)
  {
    if terms != [] {
      WrittenIsRead(terms[1..]);
      TermIsRead(terms[0], Write(terms[1..]));
      assert [terms[0]] + terms[1..] == terms;
    }
  }

  lemma AcceptsOne(t: Term, s: string)
    requires !t.Star?
    ensures Accepts([t], s) <==> |s| == 1 && Admits(t, s[0])
  {
    var terms := [t];
    assert terms[1..] == [] && Chunk(terms) == terms;
    assert Behind(terms) == [];
    if |s| == 1 {
      assert Starts([], s[1..]) && s[1..] == "";
      assert Starts(terms, s) <==> Admits(t, s[0]);
      assert Accepts([], s[1..]);
    }
  }

  /** The character is in one of the ranges. */
  ghost predicate Among(c: char, ranges: seq<Range>) {
    exists r :: r in ranges && r.lo <= c <= r.hi
  }

  /** What a single term stands for: a question mark for any character but a slash, an escaped one
      for itself, a class for the characters in one of its ranges or, negated, in none. */
  lemma SingleTermMatches(t: Term, s: string)
    requires !t.Star? && (t.Class? ==> t.ranges != [])
    ensures Match(WriteTerm(t), s).Some?
    ensures Match(WriteTerm(t), s).value <==>
            |s| == 1 && (t.AnyOne? ==> s[0] != '/') && (t.Exactly? ==> s[0] == t.c)
            && (t.Class? ==> (Among(s[0], t.ranges) <==> !t.negated))
  {
    TermIsRead(t, "");
    assert WriteTerm(t) + "" == WriteTerm(t) && [t] + [] == [t];
    AcceptsOne(t, s);
    if t.Class? && |s| == 1 {
      if i :| 0 <= i < |t.ranges| && t.ranges[i].lo <= s[0] <= t.ranges[i].hi {
        assert t.ranges[i] in t.ranges;
      }
    }
  }

  // ----- Literal beginnings --------------------------------------------------------------

  function Exactlies(s: string): (terms: seq<Term>)
    ensures |terms| == |s|
  {
    if s == "" then [] else [Exactly(s[0])] + Exactlies(s[1..])
  }

  lemma {:induction false} TermsAfterLiteral(prefix: string, rest: string)
    requires Literal(prefix)
    ensures Terms(prefix + rest) == if Terms(rest).None? then None else Some(Exactlies(prefix) + Terms(rest).value)
    decreases |prefix|
  {
    if prefix == "" {
      assert prefix + rest == rest;
      assert Terms(rest).Some? ==> [] + Terms(rest).value == Terms(rest).value;
    } else {
      var p := prefix + rest;
      assert p[0] == prefix[0] && p[0] in prefix && p[1..] == prefix[1..] + rest;
      TermsAfterLiteral(prefix[1..], rest);
      assert Terms(p) == Prefixed(Exactly(p[0]), Terms(prefix[1..] + rest));
      if Terms(rest).Some? {
        assert [Exactly(p[0])] + (Exactlies(prefix[1..]) + Terms(rest).value) == Exactlies(prefix) + Terms(rest).value;
      }
    }
  }

  lemma {:induction false} ChunkAfterLiteral(prefix: string, terms: seq<Term>)
    ensures Chunk(Exactlies(prefix) + terms) == Exactlies(prefix) + Chunk(terms)
    ensures Behind(Exactlies(prefix) + terms) == Behind(terms)
    decreases |prefix|
  {
    var all := Exactlies(prefix) + terms;
    if prefix == "" {
      assert all == terms && Exactlies(prefix) + Chunk(terms) == Chunk(terms);
    } else {
      assert all[0] == Exactly(prefix[0]) && all[1..] == Exactlies(prefix[1..]) + terms;
      ChunkAfterLiteral(prefix[1..], terms);
      assert Chunk(all) == [all[0]] + Chunk(all[1..]) == Exactlies(prefix) + Chunk(terms);
      assert Behind(all) == Behind(all[1..]);
    }
  }

  lemma {:induction false} StartsAfterLiteral(prefix: string, chunk: seq<Term>, s: string)
    ensures Starts(Exactlies(prefix) + chunk, s) <==> prefix <= s && Starts(chunk, s[|prefix|..])
    decreases |prefix|
  {
    var all := Exactlies(prefix) + chunk;
    if prefix == "" {
      assert all == chunk && s[0..] == s;
    } else if s != "" {
      StartsAfterLiteral(prefix[1..], chunk, s[1..]);
      assert all[0] == Exactly(prefix[0]) && all[1..] == Exactlies(prefix[1..]) + chunk;
      assert prefix <= s <==> prefix[0] == s[0] && prefix[1..] <= s[1..];
      assert |prefix| <= |s| ==> s[1..][|prefix| - 1..] == s[|prefix|..];
    }
  }

  lemma AcceptsAfterLiteral(prefix: string, terms: seq<Term>, s: string)
    ensures Accepts(Exactlies(prefix) + terms, s) <==> prefix <= s && Accepts(terms, s[|prefix|..])
  {
    var all := Exactlies(prefix) + terms;
    if prefix == "" {
      assert all == terms && s[0..] == s;
    } else {
      ChunkAfterLiteral(prefix, terms);
      StartsAfterLiteral(prefix, Chunk(terms), s);
      assert all[0] == Exactly(prefix[0]);
      if prefix <= s {
        var rest := s[|prefix|..];
        assert |Chunk(terms)| <= |rest| ==> rest[|Chunk(terms)|..] == s[|Chunk(all)|..];
        if terms == [] || terms[0].Star? {
          assert rest[0..] == rest && Behind(terms) == terms;
        }
      }
    }
  }

  lemma MatchAfterLiteral(prefix: string, rest: string, s: string)
    requires Literal(prefix)
    ensures Match(prefix + rest, s) ==
            if Terms(rest).None? then None else Some(prefix <= s && Accepts(Terms(rest).value, s[|prefix|..]))
  {
    TermsAfterLiteral(prefix, rest);
    if Terms(rest).Some? {
      AcceptsAfterLiteral(prefix, Terms(rest).value, s);
    }
  }

  lemma TermsOfStar()
    ensures Terms("*") == Some([Star])
  {
    assert "*"[1..] == "" && [Star] + [] == [Star];
  }

  /** A literal text followed by a star matches exactly what begins with the text and has no
      slash behind it. */
  lemma LiteralStarMatches(prefix: string, s: string)
    requires Literal(prefix)
    ensures Match(prefix + "*", s) == Some(prefix <= s && Lacks(s[|prefix|..], '/'))
  {
    TermsOfStar();
    MatchAfterLiteral(prefix, "*", s);
    assert SkipStars([Star]) == [];
  }
}
