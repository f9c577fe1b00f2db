/** Exact-revision names: the tool name, a reserved separator, and the version in unpadded
    base64url (section 5 of RFC 4648).  A character stands for one byte of the text. */
module QualifiedNames {
  import opened Common

  const SEPARATOR := ".rev_"

  predicate IsBytes(s: string) {
    forall i :: 0 <= i < |s| ==> s[i] as int < 256
  }

  /** The 64 symbols of the URL-safe alphabet. */
  function Symbol(v: nat): char
    requires v < 64
  {
    if v < 26 then 'A' + v as char
    else if v < 52 then 'a' + (v - 26) as char
    else if v < 62 then '0' + (v - 52) as char
    else if v == 62 then '-'
    else '_'
  }

  function SymbolValue(c: char): (v: Option<nat>)
    ensures v.Some? ==> v.value < 64
  {
    if 'A' <= c <= 'Z' then Some((c - 'A') as nat)
    else if 'a' <= c <= 'z' then Some((c - 'a') as nat + 26)
    else if '0' <= c <= '9' then Some((c - '0') as nat + 52)
    else if c == '-' then Some(62)
    else if c == '_' then Some(63)
    else None
  }

  /** The six-bit groups of a byte text, three bytes to four groups. */
  function Sextets(s: string): seq<int>
    requires IsBytes(s)
  {
    if s == "" then []
    else if |s| == 1 then [Upper(s[0]), Joined(s[0], 0 as char)]
    else if |s| == 2 then [Upper(s[0]), Joined(s[0], s[1]), Carried(s[1], 0 as char)]
    else [Upper(s[0]), Joined(s[0], s[1]), Carried(s[1], s[2]), s[2] as int % 64] + Sextets(s[3..])
  }

  function Upper(a: char): int {
    a as int / 4
  }

  function Joined(a: char, b: char): int {
    a as int % 4 * 16 + b as int / 16
  }

  function Carried(b: char, c: char): int {
    b as int % 16 * 4 + c as int / 64
  }

  predicate AreSextets(v: seq<int>) {
    forall i :: 0 <= i < |v| ==> 0 <= v[i] < 64
  }

  function FirstByte(p: int, q: int): char
    requires 0 <= p < 64 && 0 <= q < 64
  {
    (p * 4 + q / 16) as char
  }

  function SecondByte(q: int, r: int): char
    requires 0 <= q < 64 && 0 <= r < 64
  {
    (q % 16 * 16 + r / 4) as char
  }

  function ThirdByte(r: int, t: int): char
    requires 0 <= r < 64 && 0 <= t < 64
  {
    (r % 4 * 64 + t) as char
  }

  /** A lone trailing group holds no whole byte and is an error; spare bits are ignored. */
  function Bytes(v: seq<int>): Option<string>
    requires AreSextets(v)
  {
    if v == [] then Some("")
    else if |v| == 1 then None
    else if |v| == 2 then Some([FirstByte(v[0], v[1])])
    else if |v| == 3 then Some([FirstByte(v[0], v[1]), SecondByte(v[1], v[2])])
    else
      var rest := Bytes(v[4..]);
      if rest.None? then None
      else Some([FirstByte(v[0], v[1]), SecondByte(v[1], v[2]), ThirdByte(v[2], v[3])] + rest.value)
  }

  function Symbols(v: seq<int>): (s: string)
    requires AreSextets(v)
    ensures |s| == |v| && forall i :: 0 <= i < |v| ==> s[i] == Symbol(v[i])
  {
    seq(|v|, i requires 0 <= i < |v| => Symbol(v[i]))
  }

  predicate IsSymbols(s: string) {
    forall i :: 0 <= i < |s| ==> SymbolValue(s[i]).Some?
  }

  function SymbolValues(s: string): (v: seq<int>)
    requires IsSymbols(s)
    ensures |v| == |s| && AreSextets(v)
    ensures forall i :: 0 <= i < |s| ==> v[i] == SymbolValue(s[i]).value
  {
    seq(|s|, i requires 0 <= i < |s| => SymbolValue(s[i]).value)
  }

  function Encode(s: string): string
    requires IsBytes(s)
  {
    SextetsAreSmall(s);
    Symbols(Sextets(s))
  }

  /** Line breaks inside the encoded text are skipped. */
  function WithoutLineBreaks(s: string): string {
    if s == "" then ""
    else (if s[0] == '\r' || s[0] == '\n' then "" else [s[0]]) + WithoutLineBreaks(s[1..])
  }

  function Decode(s: string): Option<string> {
    var encoded := WithoutLineBreaks(s);
    if IsSymbols(encoded) then Bytes(SymbolValues(encoded)) else None
  }

  lemma GroupIsSmall(a: char, b: char)
    requires a as int < 256 && b as int < 256
    ensures 0 <= Upper(a) < 64 && 0 <= Joined(a, b) < 64 && 0 <= Carried(a, b) < 64
  {
  }

  lemma {:induction false} SextetsAreSmall(s: string)
    requires IsBytes(s)
    ensures AreSextets(Sextets(s))
  {
    if |s| == 1 {
      GroupIsSmall(s[0], 0 as char);
    } else if |s| == 2 {
      GroupIsSmall(s[0], s[1]);
      GroupIsSmall(s[1], 0 as char);
    } else if |s| >= 3 {
      GroupIsSmall(s[0], s[1]);
      GroupIsSmall(s[1], s[2]);
      SextetsAreSmall(s[3..]);
    }
  }

  /** Shifting bits apart and back together loses none. */
  lemma BitsReturn(a: char, b: char, c: char)
    requires a as int < 256 && b as int < 256 && c as int < 256
    ensures 0 <= Upper(a) < 64 && 0 <= Joined(a, b) < 64 && 0 <= Carried(b, c) < 64
    ensures FirstByte(Upper(a), Joined(a, b)) == a
    ensures SecondByte(Joined(a, b), Carried(b, c)) == b
    ensures ThirdByte(Carried(b, c), c as int % 64) == c
  {
    GroupIsSmall(a, b);
    GroupIsSmall(b, c);
  }

  lemma {:induction false} BytesRoundTrip(s: string)
    requires IsBytes(s)
    ensures AreSextets(Sextets(s)) && Bytes(Sextets(s)) == Some(s)
  {
    SextetsAreSmall(s);
    if |s| == 1 {
      BitsReturn(s[0], 0 as char, 0 as char);
      assert s == [s[0]];
    } else if |s| == 2 {
      BitsReturn(s[0], s[1], 0 as char);
      assert s == [s[0], s[1]];
    } else if |s| >= 3 {
      BitsReturn(s[0], s[1], s[2]);
      BytesRoundTrip(s[3..]);
      assert Sextets(s)[4..] == Sextets(s[3..]);
      assert s == [s[0], s[1], s[2]] + s[3..];
    }
  }

  lemma SymbolRoundTrip(v: nat)
    requires v < 64
    ensures SymbolValue(Symbol(v)) == Some(v)
  {
  }

  lemma SymbolsRoundTrip(v: seq<int>)
    requires AreSextets(v)
    ensures IsSymbols(Symbols(v)) && SymbolValues(Symbols(v)) == v
  {
    forall i | 0 <= i < |v| ensures SymbolValue(Symbol(v[i])) == Some(v[i] as nat) {
      SymbolRoundTrip(v[i]);
    }
  }

  lemma EncodeYieldsSymbols(s: string)
    requires IsBytes(s)
    ensures IsSymbols(Encode(s))
  {
    SextetsAreSmall(s);
    SymbolsRoundTrip(Sextets(s));
  }

  lemma {:induction false} SymbolsHaveNoLineBreaks(s: string)
    requires IsSymbols(s)
    ensures WithoutLineBreaks(s) == s
  {
    if s != "" {
      SymbolsHaveNoLineBreaks(s[1..]);
    }
  }

  /** Decoding recovers every encoded text. */
  lemma DecodeRoundTrip(s: string)
    requires IsBytes(s)
    ensures Decode(Encode(s)) == Some(s)
  {
    EncodeYieldsSymbols(s);
    SymbolsHaveNoLineBreaks(Encode(s));
    BytesRoundTrip(s);
    SymbolsRoundTrip(Sextets(s));
  }

  function QualifiedName(k: RevisionKey): string
    requires IsBytes(k.version)
  {
    k.name + SEPARATOR + Encode(k.version)
  }

  predicate SeparatorAt(s: string, i: int) {
    0 <= i <= |s| - 5 && s[i..i + 5] == SEPARATOR
  }

  /** The last place of the separator at or before `i`, or -1. */
  function LastSeparator(s: string, i: int): (index: int)
    requires i <= |s| - 5
    ensures index == -1 || SeparatorAt(s, index)
    ensures forall j :: index < j <= i ==> !SeparatorAt(s, j)
    decreases i + 1
  {
    if i < 0 then -1 else if SeparatorAt(s, i) then i else LastSeparator(s, i - 1)
  }

  function ParseQualifiedName(s: string): Option<RevisionKey> {
    var index := LastSeparator(s, |s| - 5);
    if index <= 0 then None
    else
      var decoded := Decode(s[index + 5..]);
      if decoded.None? || decoded.value == "" then None
      else Some(Revision(s[..index], decoded.value))
  }

  predicate ContainsSeparator(s: string) {
    exists i :: 0 <= i < |s| && SeparatorAt(s, i)
  }

  /** The names admission lets through: not empty, and outside the reserved namespace. */
  predicate AdmissibleName(name: string) {
    name != "" && !ContainsSeparator(name)
  }

  /** The text `part` occurs in `s`. */
  ghost predicate Holds(s: string, part: string) {
    exists a, b :: s == a + part + b
  }

  lemma AdmissibleNameIs(name: string)
    ensures AdmissibleName(name) <==> name != "" && !Holds(name, ".rev_")
  {
    if i :| 0 <= i < |name| && SeparatorAt(name, i) {
      assert name == name[..i] + ".rev_" + name[i + 5..];
    }
    if a, b :| name == a + ".rev_" + b {
      assert SeparatorAt(name, |a|);
    }
  }

  lemma SeparatorIsLast(name: string, encoded: string)
    requires IsSymbols(encoded)
    ensures var s := name + SEPARATOR + encoded; LastSeparator(s, |s| - 5) == |name|
  {
    var s := name + SEPARATOR + encoded;
    assert SeparatorAt(s, |name|) by {
      assert s[|name|..|name| + 5] == SEPARATOR;
    }
    forall j | |name| < j <= |s| - 5 ensures !SeparatorAt(s, j) {
      assert s[j] != '.' by {
        assert j >= |name| + 5 ==> s[j] == encoded[j - |name| - 5];
      }
      assert s[j..j + 5][0] == s[j];
    }
  }

  /** An exact-revision name decodes back to the revision, whatever the tool is called. */
  lemma QualifiedNameRoundTrip(k: RevisionKey)
    requires IsBytes(k.version) && k.name != "" && k.version != ""
    ensures ParseQualifiedName(QualifiedName(k)) == Some(k)
  {
    EncodeYieldsSymbols(k.version);
    SeparatorIsLast(k.name, Encode(k.version));
    DecodeRoundTrip(k.version);
    var s := QualifiedName(k);
    assert s[..|k.name|] == k.name && s[|k.name| + 5..] == Encode(k.version);
  }

  /** An alias is never read as an exact-revision name, so the two kinds never clash. */
  lemma AliasIsNotQualified(name: string, k: RevisionKey)
    requires AdmissibleName(name) && IsBytes(k.version)
    ensures ParseQualifiedName(name).None?
    ensures QualifiedName(k) != name
  {
    var s := QualifiedName(k);
    assert s[|k.name|..|k.name| + 5] == SEPARATOR;
    assert SeparatorAt(s, |k.name|);
  }

  // ----- The formats, written out --------------------------------------------------------

  const CAPITALS := "ABCDEFGHIJKLMNOPQRSTUVWXYZ"
  const SMALLS := "abcdefghijklmnopqrstuvwxyz"
  const OTHERS := "0123456789-_"

  /** The digits to the base 64. */
  const ALPHABET := CAPITALS + SMALLS + OTHERS

  lemma CapitalIs(v: nat)
    requires v < 26
    ensures Symbol(v) == CAPITALS[v]
  {
  }

  lemma SmallIs(v: nat)
    requires v < 26
    ensures Symbol(26 + v) == SMALLS[v]
  {
  }

  lemma OtherIs(v: nat)
    requires v < 12
    ensures Symbol(52 + v) == OTHERS[v]
  {
  }

  lemma SymbolIs(v: nat)
    requires v < 64
    ensures |ALPHABET| == 64 && Symbol(v) == ALPHABET[v]
  {
    if v < 26 {
      CapitalIs(v);
    } else if v < 52 {
      SmallIs(v - 26);
    } else {
      OtherIs(v - 52);
    }
  }

  /** Three bytes as one number. */
  function Number(a: char, b: char, c: char): nat {
    a as nat * 65536 + b as nat * 256 + c as nat
  }

  lemma UpperIs(a: char, b: char, c: char)
    requires a as int < 256 && b as int < 256 && c as int < 256
    ensures Upper(a) == Number(a, b, c) / 262144
  {
  }

  lemma DividedBy64(n: nat, q: nat, r: nat)
    requires n == q * 64 + r && r < 64
    ensures n / 64 == q && n % 64 == r
  {
  }

  lemma DividedBy4096(n: nat, q: nat, r: nat)
    requires n == q * 4096 + r && r < 4096
    ensures n / 4096 == q
  {
  }

  lemma JoinedIs(a: char, b: char, c: char)
    requires a as int < 256 && b as int < 256 && c as int < 256
    ensures Joined(a, b) == Number(a, b, c) / 4096 % 64
  {
    var x, y := a as int, b as int;
    var q := x * 16 + y / 16;
    DividedBy4096(Number(a, b, c), q, y % 16 * 256 + c as int);
    DividedBy64(q, x / 4, x % 4 * 16 + y / 16);
  }

  lemma CarriedIs(a: char, b: char, c: char)
    requires a as int < 256 && b as int < 256 && c as int < 256
    ensures Carried(b, c) == Number(a, b, c) / 64 % 64 && c as int % 64 == Number(a, b, c) % 64
  {
    var x, y, z := a as int, b as int, c as int;
    var q := x * 1024 + y * 4 + z / 64;
    DividedBy64(Number(a, b, c), q, z % 64);
    DividedBy64(q, x * 16 + y / 16, y % 16 * 4 + z / 64);
  }

  /** The k-th three bytes of a text, filled up with zeros. */
  function NumberAt(s: string, k: nat): nat
    requires 3 * k < |s|
  {
    Number(s[3 * k], if 3 * k + 1 < |s| then s[3 * k + 1] else 0 as char, if 3 * k + 2 < |s| then s[3 * k + 2] else 0 as char)
  }

  /** How many symbols a text takes: four for three bytes, one more than bytes for the rest. */
  function SymbolCount(s: string): nat {
    |s| / 3 * 4 + if |s| % 3 == 0 then 0 else |s| % 3 + 1
  }

  lemma {:induction false} SextetsCount(s: string)
    requires IsBytes(s)
    ensures |Sextets(s)| == SymbolCount(s)
  {
    if |s| >= 3 {
      SextetsCount(s[3..]);
    }
  }

  /** The k-th group of digits to the base 64 is the k-th three bytes. */
  predicate GroupIs(v: seq<int>, s: string, k: nat) {
    && 3 * k < |s| && 4 * k + 1 < |v|
    && v[4 * k] == NumberAt(s, k) / 262144 && v[4 * k + 1] == NumberAt(s, k) / 4096 % 64
    && (4 * k + 2 < |v| ==> v[4 * k + 2] == NumberAt(s, k) / 64 % 64)
    && (4 * k + 3 < |v| ==> v[4 * k + 3] == NumberAt(s, k) % 64)
  }

  lemma FirstGroupIs(s: string)
    requires IsBytes(s) && s != ""
    ensures GroupIs(Sextets(s), s, 0)
  {
    var b, c := if |s| > 1 then s[1] else 0 as char, if |s| > 2 then s[2] else 0 as char;
    UpperIs(s[0], b, c);
    JoinedIs(s[0], b, c);
    CarriedIs(s[0], b, c);
  }

  lemma LaterGroupIs(v: seq<int>, w: seq<int>, s: string, k: nat)
    requires |s| > 3 && |v| > 4 && v[4..] == w && k > 0 && GroupIs(w, s[3..], k - 1)
    ensures GroupIs(v, s, k)
  {
    assert NumberAt(s, k) == NumberAt(s[3..], k - 1);
    assert forall i :: 0 <= i < |w| ==> w[i] == v[i + 4];
  }

  lemma {:induction false} SextetsAt(s: string, k: nat)
    requires IsBytes(s) && 3 * k < |s|
    ensures GroupIs(Sextets(s), s, k)
    decreases |s|
  {
    if k == 0 {
      FirstGroupIs(s);
    } else {
      SextetsAt(s[3..], k - 1);
      assert Sextets(s)[4..] == Sextets(s[3..]);
      LaterGroupIs(Sextets(s), Sextets(s[3..]), s, k);
    }
  }

  /** The encoding of a version: each three bytes, as a number, in four digits to the base 64,
      the most significant first; what a shorter text does not need is left off. */
  lemma EncodingIs(s: string, k: nat)
    requires IsBytes(s) && 3 * k < |s|
    ensures |Encode(s)| == SymbolCount(s) && 4 * k + 1 < |Encode(s)|
    ensures var n, e := NumberAt(s, k), Encode(s);
            && n < 0x100_0000 && e[4 * k] == ALPHABET[n / 262144] && e[4 * k + 1] == ALPHABET[n / 4096 % 64]
            && (4 * k + 2 < |e| ==> e[4 * k + 2] == ALPHABET[n / 64 % 64])
            && (4 * k + 3 < |e| ==> e[4 * k + 3] == ALPHABET[n % 64])
  {
    SextetsCount(s);
    SextetsAt(s, k);
    SextetsAreSmall(s);
    var n := NumberAt(s, k);
    SymbolIs(n / 262144);
    SymbolIs(n / 4096 % 64);
    SymbolIs(n / 64 % 64);
    SymbolIs(n % 64);
  }

  lemma {:induction false} BytesExist(v: seq<int>)
    requires AreSextets(v)
    ensures Bytes(v).Some? <==> |v| % 4 != 1
  {
    if |v| > 4 {
      BytesExist(v[4..]);
    }
  }

  /** Line breaks aside, a text of digits to the base 64 decodes unless one of them is left over. */
  lemma DecodesExactly(s: string)
    ensures Decode(s).Some? <==>
            (forall c :: c in WithoutLineBreaks(s) ==> c in ALPHABET) && |WithoutLineBreaks(s)| % 4 != 1
  {
    var encoded := WithoutLineBreaks(s);
    forall c: char ensures SymbolValue(c).Some? <==> c in ALPHABET {
      ValueIsPlace(c);
    }
    assert IsSymbols(encoded) <==> forall c :: c in encoded ==> c in ALPHABET;
    if IsSymbols(encoded) {
      BytesExist(SymbolValues(encoded));
    }
  }

  lemma {:induction false} LineBreakIsSkipped(a: string, c: char, b: string)
    ensures c == '\r' || c == '\n' ==> WithoutLineBreaks(a + [c] + b) == WithoutLineBreaks(a + b)
  {
    if a == "" {
      assert a + [c] + b == [c] + b && a + b == b;
      assert ([c] + b)[1..] == b;
    } else {
      LineBreakIsSkipped(a[1..], c, b);
      assert (a + [c] + b)[1..] == a[1..] + [c] + b && (a + b)[1..] == a[1..] + b;
    }
  }

  lemma ValueIsPlace(c: char)
    ensures SymbolValue(c).Some? <==> c in ALPHABET
    ensures SymbolValue(c).Some? ==> ALPHABET[SymbolValue(c).value] == c
  {
    if SymbolValue(c).Some? {
      SymbolIs(SymbolValue(c).value);
      assert Symbol(SymbolValue(c).value) == c;
    }
    if i: nat :| i < |ALPHABET| && ALPHABET[i] == c {
      SymbolIs(i);
      SymbolRoundTrip(i);
    }
  }

  /** A text reads as the exact name of a revision. */
  ghost predicate Spells(s: string, k: RevisionKey, encoded: string) {
    && s == k.name + ".rev_" + encoded && !Holds(encoded, ".rev_")
    && k.name != "" && k.version != "" && Decode(encoded) == Some(k.version)
  }

  /** A text is read as an exact name exactly if, cut at its last separator, it has a name before
      and an encoded version behind it, neither of them empty. */
  lemma ParsedExactly(s: string, k: RevisionKey)
    ensures ParseQualifiedName(s) == Some(k) <==> exists encoded :: Spells(s, k, encoded)
  {
    var index := LastSeparator(s, |s| - 5);
    if ParseQualifiedName(s) == Some(k) {
      var encoded := s[index + 5..];
      assert s == s[..index] + ".rev_" + encoded && s == s[..index + 5] + encoded;
      if a, b :| encoded == a + ".rev_" + b {
        SeparatorInside(s[..index + 5], a, b);
      }
      assert Spells(s, k, encoded);
    }
    if encoded :| Spells(s, k, encoded) {
      CutAtLast(k.name, encoded);
      assert s[..|k.name|] == k.name && s[|k.name| + 5..] == encoded;
    }
  }

  lemma SeparatorInside(front: string, a: string, b: string)
    ensures SeparatorAt(front + (a + ".rev_" + b), |front| + |a|)
  {
    var s, i := front + (a + ".rev_" + b), |front| + |a|;
    assert s == (front + a) + (".rev_" + b) && |front + a| == i;
    assert s[i..i + 5] == ".rev_";
  }

  lemma CutAtLast(name: string, encoded: string)
    requires !Holds(encoded, ".rev_")
    ensures var s := name + ".rev_" + encoded; LastSeparator(s, |s| - 5) == |name|
  {
    var s := name + ".rev_" + encoded;
    assert SeparatorAt(s, |name|);
    var index := LastSeparator(s, |s| - 5);
    if index > |name| {
      NoneLater(name, encoded, index);
    }
  }

  lemma NoneLater(name: string, encoded: string, i: nat)
    requires !Holds(encoded, ".rev_") && i > |name|
    ensures !SeparatorAt(name + ".rev_" + encoded, i)
  {
    var s := name + ".rev_" + encoded;
    if SeparatorAt(s, i) {
      assert s[i..i + 5][0] == '.';
      if i >= |name| + 5 {
        OccursIn(name + ".rev_", encoded, i);
      }
    }
  }

  lemma OccursIn(front: string, back: string, i: nat)
    requires i >= |front| && SeparatorAt(front + back, i)
    ensures Holds(back, ".rev_")
  {
    var j := i - |front|;
    assert back[j..j + 5] == (front + back)[i..i + 5];
    assert back == back[..j] + ".rev_" + back[j + 5..];
  }
}
