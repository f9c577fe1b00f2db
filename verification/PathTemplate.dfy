/** Filling placeholders of an endpoint: text replacement, and what it means for templates
    whose braces are not nested.  A character stands for one byte of the text. */
module PathTemplate {
  import opened Common
  import opened QualifiedNames

  // ----- Replacing all occurrences -------------------------------------------------------

  predicate StartsWith(s: string, prefix: string) {
    |prefix| <= |s| && s[..|prefix|] == prefix
  }

  /** Occurrences are replaced from the left; replaced text is not looked at again. */
  function ReplaceAll(s: string, target: string, replacement: string): string
    requires target != ""
  {
    if s == "" then ""
    else if StartsWith(s, target) then replacement + ReplaceAll(s[|target|..], target, replacement)
    else [s[0]] + ReplaceAll(s[1..], target, replacement)
  }

  predicate Contains(s: string, t: string) {
    StartsWith(s, t) || (s != "" && Contains(s[1..], t))
  }

  function Placeholder(name: string): string {
    "{" + name + "}"
  }

  // ----- Percent encoding (section 2.1 of RFC 3986) --------------------------------------

  predicate Unescaped(c: char) {
    'a' <= c <= 'z' || 'A' <= c <= 'Z' || '0' <= c <= '9' || c in "-_.~$&+:=@"
  }

  function HexDigit(v: int): char
    requires 0 <= v < 16
  {
    if v < 10 then '0' + v as char else 'A' + (v - 10) as char
  }

  function HexValue(c: char): Option<int> {
    if '0' <= c <= '9' then Some(c as int - '0' as int)
    else if 'A' <= c <= 'F' then Some(c as int - 'A' as int + 10)
    else if 'a' <= c <= 'f' then Some(c as int - 'a' as int + 10)
    else None
  }

  function EscapedByte(c: char): string
    requires c as int < 256
  {
    if Unescaped(c) then [c] else ['%', HexDigit(c as int / 16), HexDigit(c as int % 16)]
  }

  /** The form in which a value enters one path segment. */
  function PathEscape(s: string): string
    requires IsBytes(s)
  {
    if s == "" then "" else EscapedByte(s[0]) + PathEscape(s[1..])
  }

  function PathUnescape(s: string): Option<string> {
    if s == "" then Some("")
    else if s[0] != '%' then
      var rest := PathUnescape(s[1..]);
      if rest.None? then None else Some([s[0]] + rest.value)
    else if |s| < 3 || HexValue(s[1]).None? || HexValue(s[2]).None? then None
    else
      var rest := PathUnescape(s[3..]);
      if rest.None? then None
      else Some([(HexValue(s[1]).value * 16 + HexValue(s[2]).value) as char] + rest.value)
  }

  lemma HexRoundTrip(v: int)
    requires 0 <= v < 16
    ensures HexValue(HexDigit(v)) == Some(v)
  {
  }

  lemma EscapedByteRoundTrip(c: char, rest: string)
    requires c as int < 256
    ensures PathUnescape(EscapedByte(c) + rest) ==
            if PathUnescape(rest).None? then None else Some([c] + PathUnescape(rest).value)
  {
    var s := EscapedByte(c) + rest;
    if Unescaped(c) {
      assert s[1..] == rest;
    } else {
      HexRoundTrip(c as int / 16);
      HexRoundTrip(c as int % 16);
      assert s[3..] == rest;
    }
  }

  /** The value is recovered from the segment it was written to. */
  lemma {:induction false} PathEscapeRoundTrip(s: string)
    requires IsBytes(s)
    ensures PathUnescape(PathEscape(s)) == Some(s)
  {
    if s != "" {
      PathEscapeRoundTrip(s[1..]);
      EscapedByteRoundTrip(s[0], PathEscape(s[1..]));
      assert s == [s[0]] + s[1..];
    }
  }

  const HEX := "0123456789ABCDEF"

  lemma HexDigitIs(v: int)
    requires 0 <= v < 16
    ensures HexDigit(v) == HEX[v]
  {
  }

  /** Letters, digits and some marks stand for themselves; any other byte is written as a percent
      sign and two digits to the base 16, in capitals. */
  lemma EscapedByteIs(c: char)
    requires c as int < 256
    ensures EscapedByte(c) ==
            if 'a' <= c <= 'z' || 'A' <= c <= 'Z' || '0' <= c <= '9' || c in {'-', '_', '.', '~', '$', '&', '+', ':', '=', '@'}
            then [c] else ['%', HEX[c as int / 16], HEX[c as int % 16]]
  {
    HexDigitIs(c as int / 16);
    HexDigitIs(c as int % 16);
  }

  predicate Plain(s: string) {
    forall i :: 0 <= i < |s| ==> s[i] !in "{}"
  }

  lemma EscapedByteIsPlain(c: char)
    requires c as int < 256
    ensures forall i :: 0 <= i < |EscapedByte(c)| ==> EscapedByte(c)[i] !in "{}/?#"
  {
    if !Unescaped(c) {
      HexDigitIsPlain(c as int / 16);
      HexDigitIsPlain(c as int % 16);
    }
  }

  lemma HexDigitIsPlain(v: int)
    requires 0 <= v < 16
    ensures HexDigit(v) !in "{}/?#"
  {
  }

  /** No value can end its segment, the path or a placeholder. */
  lemma {:induction false} PathEscapeIsPlain(s: string)
    requires IsBytes(s)
    ensures Plain(PathEscape(s)) && forall i :: 0 <= i < |PathEscape(s)| ==> PathEscape(s)[i] !in "/?#"
  {
    if s != "" {
      PathEscapeIsPlain(s[1..]);
      EscapedByteIsPlain(s[0]);
      var first, rest := EscapedByte(s[0]), PathEscape(s[1..]);
      forall i | 0 <= i < |first + rest| ensures (first + rest)[i] !in "{}/?#" {
        assert (first + rest)[i] == if i < |first| then first[i] else rest[i - |first|];
      }
    }
  }

  // ----- Templates -----------------------------------------------------------------------

  datatype Segment = Literal(text: string) | Hole(name: string)

  type Template = seq<Segment>

  function SegmentText(g: Segment): string {
    match g
    case Literal(text) => text
    case Hole(name) => Placeholder(name)
  }

  /** The template as the text of an endpoint. */
  function Render(t: Template): string {
    if t == [] then "" else SegmentText(t[0]) + Render(t[1..])
  }

  /** Braces occur as the delimiters of placeholders only. */
  predicate Flat(t: Template) {
    forall i :: 0 <= i < |t| ==> match t[i] case Literal(text) => Plain(text) case Hole(name) => Plain(name)
  }

  /** All holes filled at once; the ones without a value stay. */
  function Substitute(t: Template, values: map<string, string>): Template {
    if t == [] then []
    else [if t[0].Hole? && t[0].name in values then Literal(values[t[0].name]) else t[0]] + Substitute(t[1..], values)
  }

  lemma {:induction false} SubstituteAt(t: Template, values: map<string, string>)
    ensures |Substitute(t, values)| == |t|
    ensures forall i :: 0 <= i < |t| ==>
              Substitute(t, values)[i] ==
              if t[i].Hole? && t[i].name in values then Literal(values[t[i].name]) else t[i]
  {
    if t != [] {
      SubstituteAt(t[1..], values);
    }
  }

  lemma {:induction false} ReplaceSkipsPlain(a: string, b: string, name: string, replacement: string)
    requires Plain(a)
    ensures ReplaceAll(a + b, Placeholder(name), replacement) == a + ReplaceAll(b, Placeholder(name), replacement)
  {
    if a == "" {
      assert a + b == b;
    } else {
      assert (a + b)[0] == a[0] != Placeholder(name)[0];
      ReplaceSkipsPlain(a[1..], b, name, replacement);
      assert (a + b)[1..] == a[1..] + b;
    }
  }

  lemma PrefixBehindCommonHead(c: char, s: string, p: string)
    ensures StartsWith([c] + s, [c] + p) <==> StartsWith(s, p)
  {
    if |p| <= |s| {
      assert ([c] + s)[..|[c] + p|] == [c] + s[..|p|];
      assert s[..|p|] == ([c] + s)[..|[c] + p|][1..] && p == ([c] + p)[1..];
    }
  }

  lemma {:induction false} NamesMatchUpToBrace(name: string, other: string, b: string)
    requires Plain(name) && Plain(other)
    ensures StartsWith(other + ("}" + b), name + "}") <==> name == other
  {
    var s, p := other + ("}" + b), name + "}";
    if name == "" || other == "" {
      assert s[0] == if other == "" then '}' else other[0];
      assert p[0] == if name == "" then '}' else name[0];
      assert |p| <= |s| ==> s[..|p|][0] == s[0];
    } else {
      NamesMatchUpToBrace(name[1..], other[1..], b);
      assert s[1..] == other[1..] + ("}" + b) && p[1..] == name[1..] + "}";
      assert s == [s[0]] + s[1..] && p == [p[0]] + p[1..];
      if s[0] == p[0] {
        PrefixBehindCommonHead(s[0], s[1..], p[1..]);
      } else {
        assert |p| <= |s| ==> s[..|p|][0] == s[0];
      }
      assert name == [name[0]] + name[1..] && other == [other[0]] + other[1..];
    }
  }

  lemma PlaceholderMatchesItself(name: string, other: string, b: string)
    requires Plain(name) && Plain(other)
    ensures StartsWith(Placeholder(other) + b, Placeholder(name)) <==> name == other
  {
    NamesMatchUpToBrace(name, other, b);
    var s, p := Placeholder(other) + b, Placeholder(name);
    assert s == ['{'] + (other + ("}" + b)) && p == ['{'] + (name + "}");
    PrefixBehindCommonHead('{', other + ("}" + b), name + "}");
  }

  lemma ReplaceSkipsHole(other: string, b: string, name: string, replacement: string)
    requires Plain(name) && Plain(other) && !StartsWith(Placeholder(other) + b, Placeholder(name))
    ensures ReplaceAll(Placeholder(other) + b, Placeholder(name), replacement) ==
            Placeholder(other) + ReplaceAll(b, Placeholder(name), replacement)
  {
    var s, p := Placeholder(other) + b, Placeholder(name);
    assert s[1..] == other + ("}" + b);
    ReplaceSkipsPlain(other, "}" + b, name, replacement);
    assert !StartsWith("}" + b, p) && ("}" + b)[1..] == b;
    HoleInParts(other, ReplaceAll(b, p, replacement));
  }

  lemma HoleInParts(other: string, rest: string)
    ensures "{" + (other + ("}" + rest)) == Placeholder(other) + rest
  {
  }

  lemma ReplaceAtHole(other: string, b: string, name: string, replacement: string)
    requires Plain(name) && Plain(other)
    ensures ReplaceAll(Placeholder(other) + b, Placeholder(name), replacement) ==
            (if other == name then replacement else Placeholder(other)) + ReplaceAll(b, Placeholder(name), replacement)
  {
    PlaceholderMatchesItself(name, other, b);
    if other == name {
      assert (Placeholder(other) + b)[|Placeholder(name)|..] == b;
    } else {
      ReplaceSkipsHole(other, b, name, replacement);
    }
  }

  /** Replacing one placeholder in the text fills exactly that hole in the template. */
  lemma {:induction false} ReplaceFillsHole(t: Template, name: string, value: string)
    requires Flat(t) && Plain(name) && Plain(value)
    ensures ReplaceAll(Render(t), Placeholder(name), value) == Render(Substitute(t, map[name := value]))
    ensures Flat(Substitute(t, map[name := value]))
  {
    SubstituteAt(t, map[name := value]);
    if t != [] {
      ReplaceFillsHole(t[1..], name, value);
      match t[0] {
        case Literal(text) => ReplaceSkipsPlain(text, Render(t[1..]), name, value);
        case Hole(other) => ReplaceAtHole(other, Render(t[1..]), name, value);
      }
      assert Substitute(t, map[name := value])[1..] == Substitute(t[1..], map[name := value]);
    }
  }

  lemma ContainsSkipsPlain(a: string, b: string, name: string)
    requires Plain(a)
    ensures Contains(a + b, Placeholder(name)) <==> Contains(b, Placeholder(name))
  {
    if a == "" {
      assert a + b == b;
    } else {
      assert (a + b)[0] == a[0] != Placeholder(name)[0];
      ContainsSkipsPlain(a[1..], b, name);
      assert (a + b)[1..] == a[1..] + b;
    }
  }

  lemma ContainsAtHole(other: string, b: string, name: string)
    requires Plain(name) && Plain(other)
    ensures Contains(Placeholder(other) + b, Placeholder(name)) <==> other == name || Contains(b, Placeholder(name))
  {
    var s, p := Placeholder(other) + b, Placeholder(name);
    PlaceholderMatchesItself(name, other, b);
    assert s[1..] == other + ("}" + b);
    ContainsSkipsPlain(other, "}" + b, name);
    assert ("}" + b)[0] != p[0];
    assert ("}" + b)[1..] == b;
  }

  predicate HasHole(t: Template, name: string) {
    exists i :: 0 <= i < |t| && t[i] == Hole(name)
  }

  lemma {:induction false} ContainsFindsHole(t: Template, name: string)
    requires Flat(t) && Plain(name)
    ensures Contains(Render(t), Placeholder(name)) <==> HasHole(t, name)
  {
    if t != [] {
      ContainsFindsHole(t[1..], name);
      assert HasHole(t, name) <==> t[0] == Hole(name) || HasHole(t[1..], name);
      match t[0] {
        case Literal(text) => ContainsSkipsPlain(text, Render(t[1..]), name);
        case Hole(other) => ContainsAtHole(other, Render(t[1..]), name);
      }
    }
  }

  // ----- One hole after the other --------------------------------------------------------

  datatype Filling = Filling(name: string, value: string)

  /** The placeholders replaced in the text one after the other. */
  function ReplaceInTurn(s: string, fillings: seq<Filling>): string
    decreases |fillings|
  {
    if fillings == [] then s
    else ReplaceInTurn(ReplaceAll(s, Placeholder(fillings[0].name), fillings[0].value), fillings[1..])
  }

  function ValuesOf(fillings: seq<Filling>): map<string, string> {
    if fillings == [] then map[] else ValuesOf(fillings[1..])[fillings[0].name := fillings[0].value]
  }

  lemma SubstituteTwice(t: Template, name: string, value: string, more: map<string, string>)
    ensures Substitute(Substitute(t, map[name := value]), more) == Substitute(t, more[name := value])
  {
    SubstituteAt(t, map[name := value]);
    SubstituteAt(Substitute(t, map[name := value]), more);
    SubstituteAt(t, more[name := value]);
  }

  lemma SubstituteOneMore(t: Template, values: map<string, string>, name: string, value: string)
    requires name !in values
    ensures Substitute(Substitute(t, values), map[name := value]) == Substitute(t, values[name := value])
    ensures HasHole(Substitute(t, values), name) <==> HasHole(t, name)
  {
    var some := Substitute(t, values);
    var both, all := Substitute(some, map[name := value]), Substitute(t, values[name := value]);
    SubstituteAt(t, values);
    SubstituteAt(some, map[name := value]);
    SubstituteAt(t, values[name := value]);
    forall i | 0 <= i < |t| ensures both[i] == all[i] {
      assert some[i] == if t[i].Hole? && t[i].name in values then Literal(values[t[i].name]) else t[i];
    }
    HoleStands(t, values, name);
  }

  lemma HoleStands(t: Template, values: map<string, string>, name: string)
    requires name !in values
    ensures HasHole(Substitute(t, values), name) <==> HasHole(t, name)
  {
    SubstituteAt(t, values);
    if HasHole(t, name) {
      var i :| 0 <= i < |t| && t[i] == Hole(name);
      assert Substitute(t, values)[i] == Hole(name);
    }
  }

  /** In whatever order the placeholders are replaced, the text is the one with all of them
      filled at once: no value can be taken for a placeholder, as its braces are escaped. */
  lemma {:induction false} InTurnIsAtOnce(t: Template, fillings: seq<Filling>)
    requires Flat(t)
    requires forall i :: 0 <= i < |fillings| ==> Plain(fillings[i].name) && Plain(fillings[i].value)
    ensures ReplaceInTurn(Render(t), fillings) == Render(Substitute(t, ValuesOf(fillings)))
    decreases |fillings|
  {
    if fillings == [] {
      SubstituteAt(t, map[]);
      assert Substitute(t, map[]) == t;
    } else {
      var f := fillings[0];
      ReplaceFillsHole(t, f.name, f.value);
      InTurnIsAtOnce(Substitute(t, map[f.name := f.value]), fillings[1..]);
      SubstituteTwice(t, f.name, f.value, ValuesOf(fillings[1..]));
    }
  }
}
