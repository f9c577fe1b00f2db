/** Paths into a JSON response, such as `data.items[0].name`: their text, and what they select. */
module ResponsePath {
  import opened Common
  import opened Json
  import opened ArgumentNames

  datatype Token = Key(name: string) | Index(at: nat)

  const MAX_INT: int := 0x7FFF_FFFF_FFFF_FFFF

  predicate IsDigits(s: string) {
    s != "" && forall i :: 0 <= i < |s| ==> '0' <= s[i] <= '9'
  }

  /** A decimal number with an optional sign, if a 64-bit integer holds it. */
  function Atoi(s: string): Option<int> {
    var signed := s != "" && (s[0] == '-' || s[0] == '+');
    var digits := if signed then s[1..] else s;
    if !IsDigits(digits) then None
    else
      var n := if signed && s[0] == '-' then -Numeral(digits) else Numeral(digits);
      if -MAX_INT - 1 <= n <= MAX_INT then Some(n) else None
  }

  /** The first place of a character, or the length of the text. */
  function Find(s: string, c: char): (n: nat)
    ensures n <= |s|
  {
    if s == "" || s[0] == c then 0 else 1 + Find(s[1..], c)
  }

  /** Where a key ends. */
  function KeyLength(s: string): (n: nat)
    ensures n <= |s|
  {
    if s == "" || s[0] == '.' || s[0] == '[' then 0 else 1 + KeyLength(s[1..])
  }

  function WithIndices(tokens: seq<Token>, r: Option<(seq<Token>, string)>): Option<(seq<Token>, string)> {
    if r.None? then None else Some((tokens + r.value.0, r.value.1))
  }

  lemma WithIndicesTwice(a: seq<Token>, b: seq<Token>, r: Option<(seq<Token>, string)>)
    ensures WithIndices(a, WithIndices(b, r)) == WithIndices(a + b, r)
    ensures WithIndices([], r) == r
  {
    if r.Some? {
      assert a + (b + r.value.0) == (a + b) + r.value.0;
      assert [] + r.value.0 == r.value.0;
    }
  }

  /** The indices a text begins with, and what follows them. */
  function Indices(s: string): (r: Option<(seq<Token>, string)>)
    ensures r.Some? ==> |r.value.1| <= |s| && (r.value.1 != "" ==> r.value.1[0] != '[')
    ensures r.Some? && s != "" && s[0] == '[' ==> |r.value.1| < |s|
    decreases |s|
  {
    if s == "" || s[0] != '[' then Some(([], s))
    else
      var e := Find(s[1..], ']');
      if e == |s[1..]| then None
      else
        var n := Atoi(s[1..][..e]);
        if n.None? || n.value < 0 then None
        else
          var more := Indices(s[e + 2..]);
          if more.None? then None else Some(([Index(n.value)] + more.value.0, more.value.1))
  }

  /** One key or none, its indices, and the text behind the separator that must follow
      unless the path ends. */
  function Group(s: string): (r: Option<(seq<Token>, string)>)
    requires s != ""
    ensures r.Some? ==> |r.value.1| < |s|
  {
    if s[0] == '.' then None
    else
      var n := KeyLength(s);
      var indices := Indices(s[n..]);
      if indices.None? then None
      else
        PastSeparator((if n > 0 then [Key(s[..n])] else []) + indices.value.0, indices.value.1)
  }

  function PastSeparator(tokens: seq<Token>, rest: string): Option<(seq<Token>, string)> {
    if rest == "" then Some((tokens, ""))
    else if rest[0] != '.' || |rest| == 1 then None
    else Some((tokens, rest[1..]))
  }

  function Groups(s: string): Option<seq<Token>>
    decreases |s|
  {
    if s == "" then Some([])
    else
      var g := Group(s);
      if g.None? then None
      else
        Prepended(g.value.0, Groups(g.value.1))
  }

  function Parse(s: string): Option<seq<Token>> {
    if s == "" then None else Groups(s)
  }

  // ----- The parser ----------------------------------------------------------------------

  lemma SlicesOfSuffix(path: string, a: nat, n: nat)
    requires a + n <= |path|
    ensures path[a..][n..] == path[a + n..] && path[a..][..n] == path[a..a + n]
  {
  }

  lemma GroupParts(s: string, n: nat, indices: Option<(seq<Token>, string)>)
    requires s != "" && s[0] != '.' && n == KeyLength(s) && indices == Indices(s[n..])
    ensures indices.None? ==> Group(s).None?
    ensures indices.Some? ==>
              Group(s) == PastSeparator((if n > 0 then [Key(s[..n])] else []) + indices.value.0, indices.value.1)
  {
  }

  lemma IndexParts(s: string, e: nat)
    requires s != "" && s[0] == '[' && e == Find(s[1..], ']')
    ensures e == |s| - 1 ==> Indices(s).None?
    ensures e < |s| - 1 ==>
              var n := Atoi(s[1..][..e]);
              Indices(s) == if n.None? || n.value < 0 then None else WithIndices([Index(n.value)], Indices(s[e + 2..]))
  {
  }

  /** One index in brackets, and the place behind it. */
  method ParseIndex(path: string, start: nat) returns (index: Option<nat>, position: nat)
    requires start < |path| && path[start] == '['
    ensures index.None? ==> Indices(path[start..]).None?
    ensures index.Some? ==> start < position <= |path|
                            && Indices(path[start..]) == WithIndices([Index(index.value)], Indices(path[position..]))
  {
    ghost var s := path[start..];
    SlicesOfSuffix(path, start, 1);
    var e := Find(path[start + 1..], ']');
    IndexParts(s, e);
    position := start;
    if e == |path[start + 1..]| {
      return None, position;
    }
    SlicesOfSuffix(path, start + 1, e);
    var digits := path[start + 1..start + 1 + e];
    assert s[1..][..e] == digits;
    var n := Atoi(digits);
    if n.None? || n.value < 0 {
      return None, position;
    }
    SlicesOfSuffix(path, start, e + 2);
    index, position := Some(n.value), start + (e + 2);
    assert s[e + 2..] == path[position..];
  }

  method ParseIndices(path: string, start: nat) returns (tokens: Option<seq<Token>>, position: nat)
    requires start <= |path|
    ensures tokens.None? <==> Indices(path[start..]).None?
    ensures tokens.Some? ==> start <= position <= |path| && Indices(path[start..]) == Some((tokens.value, path[position..]))
  {
    position := start;
    var found: seq<Token> := [];
    WithIndicesTwice([], [], Indices(path[start..]));
    while position < |path| && path[position] == '['
      invariant start <= position <= |path|
      invariant Indices(path[start..]) == WithIndices(found, Indices(path[position..]))
    {
      var index, next := ParseIndex(path, position);
      if index.None? {
        return None, position;
      }
      WithIndicesTwice(found, [Index(index.value)], Indices(path[next..]));
      found := found + [Index(index.value)];
      position := next;
    }
    assert found + [] == found;
    tokens := Some(found);
  }

  method KeyEnd(path: string, start: nat) returns (position: nat)
    requires start <= |path|
    ensures position == start + KeyLength(path[start..])
  {
    position := start;
    while position < |path| && path[position] != '.' && path[position] != '['
      invariant start <= position <= |path|
      invariant KeyLength(path[start..]) == position - start + KeyLength(path[position..])
    {
      assert path[position..][1..] == path[position + 1..];
      position := position + 1;
    }
  }

  method ParseGroup(path: string, start: nat) returns (tokens: Option<seq<Token>>, position: nat)
    requires start < |path|
    ensures tokens.None? <==> Group(path[start..]).None?
    ensures tokens.Some? ==> start < position <= |path| && Group(path[start..]) == Some((tokens.value, path[position..]))
  {
    position := start;
    if path[position] == '.' {
      return None, position;
    }
    var end := KeyEnd(path, start);
    ghost var s, n := path[start..], end - start;
    SlicesOfSuffix(path, start, n);
    assert s[n..] == path[end..] && s[..n] == path[start..end];
    GroupParts(s, n, Indices(path[end..]));
    var indices;
    indices, position := ParseIndices(path, end);
    if indices.None? {
      return None, position;
    }
    var found := (if start < end then [Key(path[start..end])] else []) + indices.value;
    tokens, position := PassSeparator(path, position, found);
  }

  /** What must follow a group: nothing, or a separator and another group. */
  method PassSeparator(path: string, start: nat, found: seq<Token>) returns (tokens: Option<seq<Token>>, position: nat)
    requires start <= |path|
    ensures tokens.None? <==> PastSeparator(found, path[start..]).None?
    ensures tokens.Some? ==> start <= position <= |path|
                             && PastSeparator(found, path[start..]) == Some((tokens.value, path[position..]))
  {
    position := start;
    if position < |path| {
      if path[position] != '.' || position + 1 == |path| {
        return None, position;
      }
      SlicesOfSuffix(path, start, 1);
      position := position + 1;
    }
    tokens := Some(found);
  }

  /** The position only ever moves on, so the parser ends. */
  method ParseResponsePath(path: string) returns (tokens: Option<seq<Token>>)
    ensures tokens == Parse(path)
  {
    if path == "" {
      return None;
    }
    var found: seq<Token> := [];
    var position := 0;
    assert path[0..] == path;
    PrependTwice([], [], Groups(path));
    while position < |path|
      invariant 0 <= position <= |path|
      invariant Groups(path) == Prepended(found, Groups(path[position..]))
    {
      var group, next := ParseGroup(path, position);
      if group.None? {
        return None;
      }
      PrependTwice(found, group.value, Groups(path[next..]));
      found := found + group.value;
      position := next;
    }
    assert path[position..] == "" && found + [] == found;
    tokens := Some(found);
  }

  function Prepended(tokens: seq<Token>, rest: Option<seq<Token>>): Option<seq<Token>> {
    if rest.None? then None else Some(tokens + rest.value)
  }

  lemma PrependTwice(a: seq<Token>, b: seq<Token>, rest: Option<seq<Token>>)
    ensures Prepended(a, Prepended(b, rest)) == Prepended(a + b, rest)
    ensures Prepended([], rest) == rest
  {
    if rest.Some? {
      assert a + (b + rest.value) == (a + b) + rest.value;
      assert [] + rest.value == rest.value;
    }
  }

  /** Follows the tokens into a value. */
  function Select(v: JsonValue, tokens: seq<Token>): Option<JsonValue> {
    if tokens == [] then Some(v)
    else
      match tokens[0]
      case Key(name) =>
        if v.JObject? && name in v.fields then Select(v.fields[name], tokens[1..]) else None
      case Index(at) =>
        if v.JArray? && at < |v.items| then Select(v.items[at], tokens[1..]) else None
  }

  function ResolvePath(v: JsonValue, path: string): Option<JsonValue> {
    var tokens := Parse(path);
    if tokens.None? then None else Select(v, tokens.value)
  }

  method ResolveResponsePath(root: JsonValue, path: string) returns (r: Option<JsonValue>)
    ensures r == ResolvePath(root, path)
  {
    var tokens := ParseResponsePath(path);
    if tokens.None? {
      return None;
    }
    var current := root;
    for n := 0 to |tokens.value|
      invariant Select(root, tokens.value) == Select(current, tokens.value[n..])
    {
      var token := tokens.value[n];
      match token {
        case Key(name) =>
          if !current.JObject? || name !in current.fields {
            return None;
          }
          current := current.fields[name];
        case Index(at) =>
          if !current.JArray? || at >= |current.items| {
            return None;
          }
          current := current.items[at];
      }
      assert tokens.value[n..][1..] == tokens.value[n + 1..];
    }
    r := Some(current);
  }

  // ----- Printing and parsing ------------------------------------------------------------

  function PrintIndex(n: nat): string {
    "[" + Decimal(n) + "]"
  }

  /** Tokens behind the first one. */
  function PrintTail(tokens: seq<Token>): string {
    if tokens == [] then ""
    else (match tokens[0] case Key(name) => "." + name case Index(at) => PrintIndex(at)) + PrintTail(tokens[1..])
  }

  function Print(tokens: seq<Token>): string {
    if tokens == [] then ""
    else (match tokens[0] case Key(name) => name case Index(at) => PrintIndex(at)) + PrintTail(tokens[1..])
  }

  predicate IsKey(name: string) {
    name != "" && forall i :: 0 <= i < |name| ==> name[i] !in ".["
  }

  predicate Printable(t: Token) {
    match t case Key(name) => IsKey(name) case Index(at) => at <= MAX_INT
  }

  predicate AllPrintable(tokens: seq<Token>) {
    forall i :: 0 <= i < |tokens| ==> Printable(tokens[i])
  }

  lemma AtoiReadsDecimal(n: nat)
    requires n <= MAX_INT
    ensures Atoi(Decimal(n)) == Some(n)
  {
    DecimalHasDigits(n);
    DecimalRoundTrip(n);
    assert '0' <= Decimal(n)[0] <= '9';
  }

  lemma {:induction false} FindBehind(a: string, b: string, c: char)
    requires forall i :: 0 <= i < |a| ==> a[i] != c
    ensures Find(a + [c] + b, c) == |a|
  {
    if a != "" {
      FindBehind(a[1..], b, c);
      assert (a + [c] + b)[1..] == a[1..] + [c] + b;
    }
  }

  lemma IndexIsRead(n: nat, follow: string)
    requires n <= MAX_INT
    ensures Indices(PrintIndex(n) + follow) == WithIndices([Index(n)], Indices(follow))
  {
    var s, d := PrintIndex(n) + follow, Decimal(n);
    DecimalHasDigits(n);
    AtoiReadsDecimal(n);
    FindBehind(d, follow, ']');
    assert s[1..] == d + [']'] + follow;
    IndexParts(s, |d|);
    assert s[1..][..|d|] == d && s[|d| + 2..] == follow;
  }

  lemma {:induction false} KeyIsRead(name: string, follow: string)
    requires forall i :: 0 <= i < |name| ==> name[i] !in ".["
    requires follow == "" || follow[0] in ".["
    ensures KeyLength(name + follow) == |name|
  {
    if name == "" {
      assert name + follow == follow;
    } else {
      KeyIsRead(name[1..], follow);
      assert (name + follow)[1..] == name[1..] + follow;
    }
  }

  /** How many indices the tokens begin with. */
  function Leading(tokens: seq<Token>): (n: nat)
    ensures n <= |tokens| && (n < |tokens| ==> tokens[n].Key?)
  {
    if tokens == [] || tokens[0].Key? then 0 else 1 + Leading(tokens[1..])
  }

  lemma {:induction false} LeadingIndicesAreRead(tokens: seq<Token>)
    requires AllPrintable(tokens)
    ensures Indices(PrintTail(tokens)) == Some((tokens[..Leading(tokens)], PrintTail(tokens[Leading(tokens)..])))
    decreases |tokens|
  {
    if tokens != [] && tokens[0].Index? {
      var tail := tokens[1..];
      var n := Leading(tail);
      TailIsPrintable(tokens, 1);
      LeadingIndicesAreRead(tail);
      assert Printable(tokens[0]);
      IndexIsRead(tokens[0].at, PrintTail(tail));
      SplitBehindFirst(tokens, n);
      assert PrintTail(tokens) == PrintIndex(tokens[0].at) + PrintTail(tail);
      assert Indices(PrintTail(tokens)) == WithIndices([tokens[0]], Some((tail[..n], PrintTail(tail[n..]))));
    } else {
      assert tokens[..0] == [] && tokens[0..] == tokens;
    }
  }

  lemma SplitBehindFirst(tokens: seq<Token>, n: nat)
    requires tokens != [] && n < |tokens|
    ensures tokens[..n + 1] == [tokens[0]] + tokens[1..][..n] && tokens[n + 1..] == tokens[1..][n..]
  {
  }

  lemma TailIsPrintable(tokens: seq<Token>, n: nat)
    requires AllPrintable(tokens) && n <= |tokens|
    ensures AllPrintable(tokens[n..])
  {
    forall i | 0 <= i < |tokens| - n ensures Printable(tokens[n..][i]) {
      assert Printable(tokens[n + i]);
    }
  }

  /** A printed group is read up to the key of the next one. */
  lemma GroupIsRead(tokens: seq<Token>)
    requires tokens != [] && AllPrintable(tokens)
    ensures var n := 1 + Leading(tokens[1..]);
            Print(tokens) != "" && Group(Print(tokens)) == Some((tokens[..n], Print(tokens[n..])))
  {
    var s, tail := Print(tokens), tokens[1..];
    var n := Leading(tail);
    var rest := tokens[1 + n..];
    SplitBehindFirst(tokens, n);
    TailIsPrintable(tokens, 1);
    TailIsPrintable(tokens, 1 + n);
    LeadingIndicesAreRead(tail);
    RestIsSeparated(rest, tokens[..1 + n]);
    match tokens[0] {
      case Key(name) =>
        KeyIsRead(name, PrintTail(tail));
        assert s[..|name|] == name && s[|name|..] == PrintTail(tail);
        GroupParts(s, |name|, Indices(PrintTail(tail)));
      case Index(at) =>
        IndexIsRead(at, PrintTail(tail));
        assert s[0..] == s && KeyLength(s) == 0;
        GroupParts(s, 0, Indices(s));
        assert [] + ([Index(at)] + tail[..n]) == tokens[..1 + n];
    }
  }

  lemma RestIsSeparated(rest: seq<Token>, found: seq<Token>)
    requires AllPrintable(rest) && (rest != [] ==> rest[0].Key?)
    ensures PastSeparator(found, PrintTail(rest)) == Some((found, Print(rest)))
  {
    if rest != [] {
      assert Printable(rest[0]);
      var key := rest[0].name;
      assert PrintTail(rest) == "." + (key + PrintTail(rest[1..]));
    }
  }

  lemma GroupsAreRead(s: string, tokens: seq<Token>, n: nat)
    requires s != "" && n <= |tokens| && Group(s).Some? && Group(s).value.0 == tokens[..n]
    requires Groups(Group(s).value.1) == Some(tokens[n..])
    ensures Groups(s) == Some(tokens)
  {
    assert tokens[..n] + tokens[n..] == tokens;
  }

  lemma {:induction false} GroupsRoundTrip(tokens: seq<Token>)
    requires AllPrintable(tokens)
    ensures Groups(Print(tokens)) == Some(tokens)
    decreases |tokens|
  {
    if tokens != [] {
      var n := 1 + Leading(tokens[1..]);
      GroupIsRead(tokens);
      TailIsPrintable(tokens, n);
      GroupsRoundTrip(tokens[n..]);
      GroupsAreRead(Print(tokens), tokens, n);
    }
  }

  /** Every list of keys and indices has a text that reads as that list. */
  lemma ParseRoundTrip(tokens: seq<Token>)
    requires tokens != [] && AllPrintable(tokens)
    ensures Parse(Print(tokens)) == Some(tokens)
  {
    GroupsRoundTrip(tokens);
    GroupIsRead(tokens);
  }

  // ----- The grammar of paths ------------------------------------------------------------

  /** What stands between two separators: a key or none, and the texts of its indices. */
  datatype Segment = Segment(name: string, indices: seq<string>)

  /** A text that reads as an index. */
  predicate IsIndex(s: string) {
    Atoi(s).Some? && Atoi(s).value >= 0 && forall i :: 0 <= i < |s| ==> s[i] != ']'
  }

  /** The digits of a text with or without a sign. */
  function Unsigned(s: string): string {
    if s != "" && (s[0] == '+' || s[0] == '-') then s[1..] else s
  }

  /** An index is a decimal number a 64-bit integer holds, with or without a plus sign; only zero
      may have a minus sign. */
  lemma IndexIs(s: string)
    ensures IsIndex(s) <==> && Unsigned(s) != "" && (forall i :: 0 <= i < |Unsigned(s)| ==> '0' <= Unsigned(s)[i] <= '9')
                            && Numeral(Unsigned(s)) <= 9_223_372_036_854_775_807 && (s[0] == '-' ==> Numeral(Unsigned(s)) == 0)
    ensures IsIndex(s) ==> Atoi(s) == Some(Numeral(Unsigned(s)))
  {
    if IsDigits(Unsigned(s)) {
      NumeralIsNatural(Unsigned(s));
      assert forall i :: 0 < i < |s| && s != Unsigned(s) ==> s[i] == Unsigned(s)[i - 1];
    }
  }

  lemma {:induction false} NumeralIsNatural(s: string)
    requires forall i :: 0 <= i < |s| ==> '0' <= s[i] <= '9'
    ensures Numeral(s) >= 0
  {
    if s != "" {
      NumeralIsNatural(s[..|s| - 1]);
    }
  }

  predicate AllIndices(indices: seq<string>) {
    indices == [] || (IsIndex(indices[0]) && AllIndices(indices[1..]))
  }

  predicate IsSegment(g: Segment) {
    && (g.name == "" ==> g.indices != []) && AllIndices(g.indices)
    && forall i :: 0 <= i < |g.name| ==> g.name[i] !in ".["
  }

  predicate AllSegments(segments: seq<Segment>) {
    segments == [] || (IsSegment(segments[0]) && AllSegments(segments[1..]))
  }

  function IndexText(digits: string): string {
    "[" + digits + "]"
  }

  function IndicesText(indices: seq<string>): string {
    if indices == [] then "" else IndexText(indices[0]) + IndicesText(indices[1..])
  }

  function IndexTokens(indices: seq<string>): seq<Token>
    requires AllIndices(indices)
  {
    if indices == [] then [] else [Index(Atoi(indices[0]).value)] + IndexTokens(indices[1..])
  }

  function SegmentText(g: Segment): string {
    g.name + IndicesText(g.indices)
  }

  function SegmentTokens(g: Segment): seq<Token>
    requires IsSegment(g)
  {
    (if g.name == "" then [] else [Key(g.name)]) + IndexTokens(g.indices)
  }

  function PathText(segments: seq<Segment>): string {
    if segments == [] then ""
    else SegmentText(segments[0]) + if |segments| == 1 then "" else "." + PathText(segments[1..])
  }

  function PathTokens(segments: seq<Segment>): seq<Token>
    requires AllSegments(segments)
  {
    if segments == [] then [] else SegmentTokens(segments[0]) + PathTokens(segments[1..])
  }

  /** The segments spell the text and read as the tokens. */
  predicate Spells(segments: seq<Segment>, s: string, tokens: seq<Token>) {
    segments != [] && AllSegments(segments) && PathText(segments) == s && PathTokens(segments) == tokens
  }

  lemma Regrouped(a: string, b: string, c: string)
    ensures a + b + c == a + (b + c)
  {
  }

  lemma {:induction false} FindIsFirst(s: string, c: char)
    ensures Find(s, c) < |s| ==> s[Find(s, c)] == c
    ensures forall i :: 0 <= i < Find(s, c) ==> s[i] != c
  {
    if s != "" && s[0] != c {
      FindIsFirst(s[1..], c);
    }
  }

  lemma {:induction false} KeyLengthIsFirst(s: string)
    ensures KeyLength(s) < |s| ==> s[KeyLength(s)] in ".["
    ensures forall i :: 0 <= i < KeyLength(s) ==> s[i] !in ".["
  {
    if s != "" && s[0] !in ".[" {
      KeyLengthIsFirst(s[1..]);
    }
  }

  lemma CutIndex(s: string, e: nat)
    requires e + 2 <= |s| && s[0] == '[' && s[e + 1] == ']'
    ensures s == IndexText(s[1..e + 1]) + s[e + 2..]
  {
  }

  lemma FirstIndexIsSpelled(s: string) returns (digits: string, rest: string)
    requires Indices(s).Some? && s != "" && s[0] == '['
    ensures s == IndexText(digits) + rest && IsIndex(digits) && Indices(rest).Some?
    ensures Indices(s) == Some(([Index(Atoi(digits).value)] + Indices(rest).value.0, Indices(rest).value.1))
  {
    var e := Find(s[1..], ']');
    FindIsFirst(s[1..], ']');
    IndexParts(s, e);
    digits, rest := s[1..][..e], s[e + 2..];
    assert digits == s[1..e + 1] && s[e + 1] == s[1..][e];
    CutIndex(s, e);
  }

  lemma {:induction false} IndicesAreSpelled(s: string) returns (indices: seq<string>)
    requires Indices(s).Some?
    ensures AllIndices(indices) && s == IndicesText(indices) + Indices(s).value.1
    ensures Indices(s).value.0 == IndexTokens(indices)
    ensures s != "" && s[0] == '[' ==> indices != []
    decreases |s|
  {
    if s == "" || s[0] != '[' {
      indices := [];
    } else {
      var digits, rest := FirstIndexIsSpelled(s);
      assert |rest| < |s|;
      var more := IndicesAreSpelled(rest);
      indices := [digits] + more;
      assert indices[1..] == more;
      Regrouped(IndexText(digits), IndicesText(more), Indices(rest).value.1);
    }
  }

  /** The first segment of a readable text, and what stands behind its separator. */
  lemma SegmentIsSpelled(s: string) returns (g: Segment)
    requires s != "" && Group(s).Some?
    ensures IsSegment(g) && Group(s).value.0 == SegmentTokens(g)
    ensures s == SegmentText(g) + if Group(s).value.1 == "" then "" else "." + Group(s).value.1
  {
    var n := KeyLength(s);
    var name, behind := s[..n], s[n..];
    KeyLengthIsFirst(s);
    GroupParts(s, n, Indices(behind));
    var indices := IndicesAreSpelled(behind);
    assert n == 0 ==> behind[0] == '[';
    g := Segment(name, indices);
    SegmentInText(g, Indices(behind).value.1);
    assert s == name + behind;
  }

  lemma SegmentInText(g: Segment, rest: string)
    ensures g.name + (IndicesText(g.indices) + rest) == SegmentText(g) + rest
    ensures rest != "" && rest[0] == '.' ==> rest == "." + rest[1..]
    ensures SegmentText(g) + "" == SegmentText(g)
  {
  }

  lemma {:induction false} PathIsSpelled(s: string) returns (segments: seq<Segment>)
    requires s != "" && Groups(s).Some?
    ensures Spells(segments, s, Groups(s).value)
    decreases |s|
  {
    var g := SegmentIsSpelled(s);
    var rest := Group(s).value.1;
    if rest == "" {
      segments := [g];
      assert segments[1..] == [] && Group(s).value.0 + [] == Group(s).value.0;
    } else {
      var more := PathIsSpelled(rest);
      segments := [g] + more;
      assert segments[1..] == more;
    }
  }

  lemma IndexTextIsRead(digits: string, follow: string)
    requires IsIndex(digits)
    ensures Indices(IndexText(digits) + follow) == WithIndices([Index(Atoi(digits).value)], Indices(follow))
  {
    var s := IndexText(digits) + follow;
    FindBehind(digits, follow, ']');
    assert s[1..] == digits + [']'] + follow;
    IndexParts(s, |digits|);
    assert s[1..][..|digits|] == digits && s[|digits| + 2..] == follow;
  }

  lemma {:induction false} IndicesTextIsRead(indices: seq<string>, follow: string)
    requires AllIndices(indices) && (follow != "" ==> follow[0] != '[')
    ensures Indices(IndicesText(indices) + follow) == Some((IndexTokens(indices), follow))
    decreases |indices|
  {
    if indices == [] {
      assert IndicesText(indices) + follow == follow;
    } else {
      IndicesTextIsRead(indices[1..], follow);
      IndexTextIsRead(indices[0], IndicesText(indices[1..]) + follow);
      Regrouped(IndexText(indices[0]), IndicesText(indices[1..]), follow);
    }
  }

  lemma SegmentIsRead(g: Segment, follow: string)
    requires IsSegment(g) && (follow != "" ==> follow[0] == '.')
    ensures SegmentText(g) + follow != "" && Group(SegmentText(g) + follow) == PastSeparator(SegmentTokens(g), follow)
  {
    var behind := IndicesText(g.indices) + follow;
    var s := g.name + behind;
    Regrouped(g.name, IndicesText(g.indices), follow);
    IndicesTextIsRead(g.indices, follow);
    KeyIsRead(g.name, behind);
    assert s[..|g.name|] == g.name && s[|g.name|..] == behind;
    assert s[0] != '.';
    GroupParts(s, |g.name|, Indices(behind));
  }

  lemma {:induction false} SpelledIsRead(segments: seq<Segment>)
    requires segments != [] && AllSegments(segments)
    ensures PathText(segments) != "" && Groups(PathText(segments)) == Some(PathTokens(segments))
    decreases |segments|
  {
    var g, more := segments[0], segments[1..];
    if more == [] {
      SegmentIsRead(g, "");
      assert SegmentText(g) + "" == PathText(segments);
      assert SegmentTokens(g) + [] == PathTokens(segments);
    } else {
      SpelledIsRead(more);
      SegmentIsRead(g, "." + PathText(more));
      assert ("." + PathText(more))[1..] == PathText(more);
    }
  }

  /** A path is read exactly if it consists of segments joined by single separators, each a key,
      indices behind a key, or indices alone; and it reads as their keys and indices in order. */
  lemma ParseIsTheGrammar(s: string, tokens: seq<Token>)
    ensures Parse(s) == Some(tokens) <==> exists segments :: Spells(segments, s, tokens)
  {
    if Parse(s) == Some(tokens) {
      var segments := PathIsSpelled(s);
    }
    if segments :| Spells(segments, s, tokens) {
      SpelledIsRead(segments);
    }
  }

  /** What one step selects: the field of that name of an object, the item at that place of an
      array, and nothing of anything else. */
  lemma StepSelects(v: JsonValue, name: string, at: nat)
    ensures Select(v, []) == Some(v)
    ensures Select(v, [Key(name)]) == match v case JObject(fields) => (if name in fields then Some(fields[name]) else None) case _ => None
    ensures Select(v, [Index(at)]) == match v case JArray(items) => (if at < |items| then Some(items[at]) else None) case _ => None
  {
    assert [Key(name)][1..] == [] && [Index(at)][1..] == [];
  }

  // ----- Paths one after the other -------------------------------------------------------

  lemma {:induction false} SelectInTurn(v: JsonValue, a: seq<Token>, b: seq<Token>)
    ensures Select(v, a + b) == if Select(v, a).None? then None else Select(Select(v, a).value, b)
    decreases |a|
  {
    if a == [] {
      assert a + b == b;
    } else {
      assert (a + b)[1..] == a[1..] + b;
      match a[0] {
        case Key(name) => if v.JObject? && name in v.fields { SelectInTurn(v.fields[name], a[1..], b); }
        case Index(at) => if v.JArray? && at < |v.items| { SelectInTurn(v.items[at], a[1..], b); }
      }
    }
  }

  lemma {:induction false} KeyLengthOfPrefix(s: string, t: string)
    requires t != "" && t[0] == '.'
    ensures KeyLength(s + t) == KeyLength(s)
  {
    if s == "" {
      assert s + t == t;
    } else {
      KeyLengthOfPrefix(s[1..], t);
      assert (s + t)[1..] == s[1..] + t;
    }
  }

  lemma {:induction false} FindInPrefix(s: string, t: string, c: char)
    requires Find(s, c) < |s|
    ensures Find(s + t, c) == Find(s, c)
  {
    if s[0] != c {
      FindInPrefix(s[1..], t, c);
      assert (s + t)[1..] == s[1..] + t;
    }
  }

  lemma IndexOfPrefix(s: string, t: string, e: nat)
    requires s != "" && s[0] == '[' && e == Find(s[1..], ']') < |s| - 1
    ensures (s + t)[1..] == s[1..] + t && Find((s + t)[1..], ']') == e
    ensures (s + t)[1..][..e] == s[1..][..e] && (s + t)[e + 2..] == s[e + 2..] + t
  {
    assert (s + t)[1..] == s[1..] + t;
    FindInPrefix(s[1..], t, ']');
  }

  lemma OneMoreIndexOfPrefix(s: string, t: string, e: nat)
    requires s != "" && s[0] == '[' && e == Find(s[1..], ']') && Indices(s).Some?
    ensures e < |s| - 1 && Indices(s[e + 2..]).Some?
    ensures Indices(s + t).Some? <==> Indices(s[e + 2..] + t).Some?
    ensures Indices(s + t).Some? ==>
              var n := Atoi(s[1..][..e]).value;
              n >= 0 && Indices(s) == WithIndices([Index(n)], Indices(s[e + 2..]))
              && Indices(s + t) == WithIndices([Index(n)], Indices(s[e + 2..] + t))
  {
    IndexParts(s, e);
    IndexOfPrefix(s, t, e);
    IndexParts(s + t, e);
  }

  lemma {:induction false} IndicesOfPrefix(s: string, t: string)
    requires t != "" && t[0] == '.' && Indices(s).Some?
    ensures Indices(s + t) == Some((Indices(s).value.0, Indices(s).value.1 + t))
    decreases |s|
  {
    if s == "" {
      assert s + t == t;
    } else if s[0] == '[' {
      var e := Find(s[1..], ']');
      OneMoreIndexOfPrefix(s, t, e);
      IndicesOfPrefix(s[e + 2..], t);
    }
  }

  lemma SeparatedPrefix(tokens: seq<Token>, rest: string, b: string)
    requires PastSeparator(tokens, rest).Some? && b != ""
    ensures var next := PastSeparator(tokens, rest).value.1;
            PastSeparator(tokens, rest + ("." + b)) == Some((tokens, if next == "" then b else next + "." + b))
  {
    var t := "." + b;
    if rest == "" {
      assert rest + t == t && t[1..] == b;
    } else {
      assert (rest + t)[1..] == rest[1..] + t && rest[1..] + t == rest[1..] + "." + b;
    }
  }

  lemma GroupOfPrefix(s: string, b: string)
    requires s != "" && b != "" && Group(s).Some?
    ensures var g := Group(s).value;
            Group(s + "." + b) == Some((g.0, if g.1 == "" then b else g.1 + "." + b))
  {
    var t := "." + b;
    var n := KeyLength(s);
    assert s + "." + b == s + t;
    KeyLengthOfPrefix(s, t);
    var key, behind := s[..n], s[n..];
    assert (s + t)[n..] == behind + t && (s + t)[..n] == key;
    GroupParts(s, n, Indices(behind));
    IndicesOfPrefix(behind, t);
    GroupParts(s + t, n, Indices(behind + t));
    SeparatedPrefix((if n > 0 then [Key(key)] else []) + Indices(behind).value.0, Indices(behind).value.1, b);
  }

  lemma {:induction false} GroupsInTurn(s: string, b: string)
    requires s != "" && b != "" && Groups(s).Some?
    ensures Groups(s + "." + b) == Prepended(Groups(s).value, Groups(b))
    decreases |s|
  {
    GroupOfPrefix(s, b);
    var g := Group(s).value;
    if g.1 == "" {
      assert g.0 + [] == g.0;
    } else {
      GroupsInTurn(g.1, b);
      PrependTwice(g.0, Groups(g.1).value, Groups(b));
    }
  }

  /** Following two paths joined by a separator is following one after the other. */
  lemma ResolveInTurn(v: JsonValue, a: string, b: string)
    requires Parse(a).Some? && Parse(b).Some?
    ensures ResolvePath(v, a + "." + b) ==
            if ResolvePath(v, a).None? then None else ResolvePath(ResolvePath(v, a).value, b)
  {
    GroupsInTurn(a, b);
    SelectInTurn(v, Parse(a).value, Parse(b).value);
  }
}
