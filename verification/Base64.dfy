/** The base64url codec behind share links. `btoa` and `atob` are the browser's: RFC 4648, section 4, and the
    forgiving decoder of the HTML standard. */
module Base64 {
  import opened Optional
  import opened Utf8

  type Sextet = v: int | 0 <= v < 64

  // ---- RFC 4648, section 4 -----------------------------------------------------------------------------

  function Letter(v: Sextet): char {
    if v < 26 then (v + 65) as char
    else if v < 52 then (v + 71) as char
    else if v < 62 then (v - 4) as char
    else if v == 62 then '+' else '/'
  }

  function LetterValue(c: char): Option<Sextet> {
    if 'A' <= c <= 'Z' then Some(c as int - 65)
    else if 'a' <= c <= 'z' then Some(c as int - 71)
    else if '0' <= c <= '9' then Some(c as int + 4)
    else if c == '+' then Some(62)
    else if c == '/' then Some(63)
    else None
  }

  function Letters(vs: seq<Sextet>): (s: string)
    ensures |s| == |vs|
  {
    seq(|vs|, i requires 0 <= i < |vs| => Letter(vs[i]))
  }

  function LetterValues(s: string): (vs: Option<seq<Sextet>>)
    ensures vs.Some? <==> forall i :: 0 <= i < |s| ==> LetterValue(s[i]).Some?
    ensures vs.Some? ==> |vs.value| == |s| && forall i :: 0 <= i < |s| ==> LetterValue(s[i]) == Some(vs.value[i])
  {
    if s == "" then Some([])
    else
      var rest := LetterValues(s[1..]);
      assert forall i :: 0 < i < |s| ==> s[i] == s[1..][i - 1];
      if LetterValue(s[0]).None? || rest.None? then
        assert LetterValue(s[0]).None? || exists i :: 0 < i < |s| && LetterValue(s[i]).None?;
        None
      else Some([LetterValue(s[0]).value] + rest.value)
  }

  function High6(b: Byte): Sextet { b / 4 }
  function Cross4(b: Byte, c: Byte): Sextet { (b as int % 4) * 16 + c / 16 }
  function Cross2(b: Byte, c: Byte): Sextet { (b as int % 16) * 4 + c / 64 }
  function Low6(b: Byte): Sextet { b % 64 }

  /** Six bits at a time; the last group is filled with zero bits. */
  function Sextets(b: seq<Byte>): seq<Sextet> {
    if |b| == 0 then []
    else if |b| == 1 then [High6(b[0]), Cross4(b[0], 0)]
    else if |b| == 2 then [High6(b[0]), Cross4(b[0], b[1]), Cross2(b[1], 0)]
    else [High6(b[0]), Cross4(b[0], b[1]), Cross2(b[1], b[2]), Low6(b[2])] + Sextets(b[3..])
  }

  function First8(v: Sextet, w: Sextet): Byte { (v as int) * 4 + w / 16 }
  function Second8(v: Sextet, w: Sextet): Byte { (v as int % 16) * 16 + w / 4 }
  function Third8(v: Sextet, w: Sextet): Byte { (v as int % 4) * 64 + w }

  /** A final group of two or three letters drops its spare bits. */
  function Bytes(v: seq<Sextet>): seq<Byte> {
    if |v| < 2 then []
    else if |v| == 2 then [First8(v[0], v[1])]
    else if |v| == 3 then [First8(v[0], v[1]), Second8(v[1], v[2])]
    else [First8(v[0], v[1]), Second8(v[1], v[2]), Third8(v[2], v[3])] + Bytes(v[4..])
  }

  function Equals(n: nat): string { if n == 0 then "" else Equals(n - 1) + "=" }

  function Btoa(binary: seq<Byte>): string {
    Letters(Sextets(binary)) + Equals((3 - |binary| % 3) % 3)
  }

  // ---- the HTML standard's forgiving-base64 decode -------------------------------------------------------

  predicate IsAsciiSpace(c: char) { c == ' ' || c == '\t' || c == '\n' || c == '\r' || c as int == 12 }

  function DropSpace(s: string): string {
    if s == "" then "" else (if IsAsciiSpace(s[0]) then "" else [s[0]]) + DropSpace(s[1..])
  }

  /** One or two trailing `=` of a whole number of groups. */
  function Unpad(s: string): string {
    if |s| % 4 != 0 || s == "" || s[|s| - 1] != '=' then s
    else if s[|s| - 2] != '=' then s[..|s| - 1]
    else s[..|s| - 2]
  }

  /** None where atob throws. */
  function Atob(s: string): Option<seq<Byte>> {
    var data := Unpad(DropSpace(s));
    if |data| % 4 == 1 || LetterValues(data).None? then None else Some(Bytes(LetterValues(data).value))
  }

  // ---- the codec -----------------------------------------------------------------------------------------

  const CHUNK: nat := 0x8000

  function Replace(s: string, from: char, to: char): (r: string)
    ensures |r| == |s| && forall i :: 0 <= i < |s| ==> r[i] == if s[i] == from then to else s[i]
  {
    seq(|s|, i requires 0 <= i < |s| => if s[i] == from then to else s[i])
  }

  function StripEquals(s: string): (r: string)
    ensures |r| <= |s| && r == s[..|r|] && (r == "" || r[|r| - 1] != '=')
    ensures forall i :: |r| <= i < |s| ==> s[i] == '='
  {
    if s == "" || s[|s| - 1] != '=' then s else StripEquals(s[..|s| - 1])
  }

  function ToUrl(binary: seq<Byte>): string {
    StripEquals(Replace(Replace(Btoa(binary), '+', '-'), '/', '_'))
  }

  function Padding(n: nat): (r: nat)
    ensures (n + r) % 4 == 0 && r < 4 && (r == 3 <==> n % 4 == 1)
  {
    assert n % 4 == 0 || n % 4 == 1 || n % 4 == 2 || n % 4 == 3;
    (4 - n % 4) % 4
  }

  function Padded(param: string): (r: string)
    ensures |r| % 4 == 0
  {
    var b64 := Replace(Replace(param, '-', '+'), '_', '/');
    EqualsLength(Padding(|b64|));
    b64 + Equals(Padding(|b64|))
  }

  lemma {:induction false} EqualsLength(n: nat)
    ensures |Equals(n)| == n && forall i :: 0 <= i < n ==> Equals(n)[i] == '='
  {
    if n > 0 { EqualsLength(n - 1); }
  }

  method BytesToBase64Url(bytes: array<Byte>) returns (s: string)
    ensures s == ToUrl(bytes[..])
  {
    var binary: seq<Byte> := [];
    var i := 0;
    while i < bytes.Length
      invariant 0 <= i && binary == bytes[..if i < bytes.Length then i else bytes.Length]
    {
      var end := if i + CHUNK < bytes.Length then i + CHUNK else bytes.Length;
      binary := binary + bytes[i..end];
      i := i + CHUNK;
    }
    assert binary == bytes[..];
    s := StripEquals(Replace(Replace(Btoa(binary), '+', '-'), '/', '_'));
  }

  /** `ok` is false where atob throws; the array is then empty. */
  method Base64UrlToBytes(param: string) returns (ok: bool, bytes: array<Byte>)
    ensures fresh(bytes)
    ensures ok == Atob(Padded(param)).Some?
    ensures ok ==> bytes[..] == Atob(Padded(param)).value
  {
    var binary := Atob(Padded(param));
    if binary.None? {
      ok, bytes := false, new Byte[0];
      return;
    }
    ok, bytes := true, new Byte[|binary.value|];
    var i := 0;
    while i < |binary.value|
      invariant 0 <= i <= |binary.value| == bytes.Length
      invariant bytes[..i] == binary.value[..i]
    {
      bytes[i] := binary.value[i];
      i := i + 1;
    }
  }

  // ---- properties ------------------------------------------------------------------------------------------

  lemma LetterInverts(v: Sextet)
    ensures LetterValue(Letter(v)) == Some(v) && Letter(v) != '=' && !IsAsciiSpace(Letter(v))
  {
  }

  lemma GroupInverts(a: Byte, b: Byte, c: Byte)
    ensures First8(High6(a), Cross4(a, b)) == a
    ensures Second8(Cross4(a, b), Cross2(b, c)) == b
    ensures Third8(Cross2(b, c), Low6(c)) == c
  {
  }

  lemma SextetsStep(a: Byte, b: Byte, c: Byte, rest: seq<Byte>)
    ensures Sextets([a, b, c] + rest) == [High6(a), Cross4(a, b), Cross2(b, c), Low6(c)] + Sextets(rest)
  {
    hide High6, Cross4, Cross2, Low6;
    assert ([a, b, c] + rest)[3..] == rest;
  }

  lemma BytesStep(a: Sextet, b: Sextet, c: Sextet, d: Sextet, rest: seq<Sextet>)
    ensures Bytes([a, b, c, d] + rest) == [First8(a, b), Second8(b, c), Third8(c, d)] + Bytes(rest)
  {
    hide First8, Second8, Third8;
    assert ([a, b, c, d] + rest)[4..] == rest;
  }

  lemma ShortInverts(b: seq<Byte>)
    requires |b| < 3
    ensures Bytes(Sextets(b)) == b
  {
    hide First8, Second8, Third8, High6, Cross4, Cross2, Low6;
    if |b| == 1 {
      GroupInverts(b[0], 0, 0);
      assert Sextets(b) == [High6(b[0]), Cross4(b[0], 0)];
    } else if |b| == 2 {
      GroupInverts(b[0], b[1], 0);
      assert Sextets(b) == [High6(b[0]), Cross4(b[0], b[1]), Cross2(b[1], 0)];
    }
  }

  lemma {:induction false} BytesInvertSextets(b: seq<Byte>)
    ensures Bytes(Sextets(b)) == b
  {
    hide Bytes, Sextets, First8, Second8, Third8, High6, Cross4, Cross2, Low6;
    if |b| < 3 {
      ShortInverts(b);
    } else {
      var x, y, z, rest := b[0], b[1], b[2], b[3..];
      assert b == [x, y, z] + rest;
      SextetsStep(x, y, z, rest);
      BytesStep(High6(x), Cross4(x, y), Cross2(y, z), Low6(z), Sextets(rest));
      GroupInverts(x, y, z);
      BytesInvertSextets(rest);
    }
  }

  lemma {:induction false} SextetsLength(b: seq<Byte>)
    ensures |Sextets(b)| == (4 * |b| + 2) / 3
  {
    hide High6, Cross4, Cross2, Low6;
    if |b| >= 3 { SextetsLength(b[3..]); }
  }

  /** RFC 4648, section 5. */
  predicate UrlLetter(c: char) { 'A' <= c <= 'Z' || 'a' <= c <= 'z' || '0' <= c <= '9' || c == '-' || c == '_' }

  function UrlForm(v: Sextet): char { if v == 62 then '-' else if v == 63 then '_' else Letter(v) }

  /** Stripping takes exactly the padding: what is left is one url letter for each six bits. */
  lemma UrlSpellsSextets(b: seq<Byte>)
    ensures |ToUrl(b)| == |Sextets(b)|
    ensures forall i :: 0 <= i < |Sextets(b)| ==> ToUrl(b)[i] == UrlForm(Sextets(b)[i])
  {
    hide Sextets, Letter;
    var vs := Sextets(b);
    var n := (3 - |b| % 3) % 3;
    EqualsLength(n);
    forall i | 0 <= i < |vs| ensures UrlForm(vs[i]) != '=' { LetterInverts(vs[i]); }
    forall i | 0 <= i < |vs| ensures UrlForm(vs[i]) == Swapped(Letter(vs[i])) { UrlFormSwaps(vs[i]); }
    hide UrlForm;
    var s := Replace(Replace(Btoa(b), '+', '-'), '/', '_');
    var x := s[..|vs|];
    assert forall i :: 0 <= i < |vs| ==> Btoa(b)[i] == Letter(vs[i]);
    assert forall i :: 0 <= i < |vs| ==> s[i] == Swapped(Letter(vs[i])) == UrlForm(vs[i]);
    assert forall i :: |vs| <= i < |s| ==> Btoa(b)[i] == '=' && s[i] == '=';
    assert s == x + Equals(n);
    StripsExactly(x, n);
  }

  lemma StripsExactly(x: string, n: nat)
    requires x == "" || x[|x| - 1] != '='
    ensures StripEquals(x + Equals(n)) == x
  {
    hide StripEquals;
    EqualsLength(n);
    var s := x + Equals(n);
    var r := StripEquals(s);
    assert x == "" || s[|x| - 1] != '=';
    assert forall i :: |x| <= i < |s| ==> s[i] == '=';
    assert s[..|x|] == x;
    hide Equals;
    assert |r| == |x|;
  }

  function Swapped(c: char): char { if c == '+' then '-' else if c == '/' then '_' else c }

  lemma UrlFormSwaps(v: Sextet)
    ensures UrlForm(v) == Swapped(Letter(v)) && UrlLetter(UrlForm(v))
  {
  }

  /** Only the URL-safe alphabet, and never a length that no byte string has. */
  lemma UrlIsSafe(b: seq<Byte>)
    ensures forall i :: 0 <= i < |ToUrl(b)| ==> UrlLetter(ToUrl(b)[i])
    ensures |ToUrl(b)| % 4 != 1
    ensures |ToUrl(b)| == (4 * |b| + 2) / 3
  {
    UrlSpellsSextets(b);
    SextetsLength(b);
    hide ToUrl, Sextets, UrlForm, UrlLetter;
    forall i | 0 <= i < |ToUrl(b)| ensures UrlLetter(ToUrl(b)[i]) { UrlFormSwaps(Sextets(b)[i]); }
  }

  function UrlValue(c: char): (v: Sextet)
    requires UrlLetter(c)
    ensures UrlForm(v) == c
  {
    if c == '-' then 62 else if c == '_' then 63 else LetterValue(c).value
  }

  function UrlValues(param: string): (vs: seq<Sextet>)
    requires forall i :: 0 <= i < |param| ==> UrlLetter(param[i])
    ensures |vs| == |param| && forall i :: 0 <= i < |param| ==> vs[i] == UrlValue(param[i])
  {
    seq(|param|, i requires 0 <= i < |param| => UrlValue(param[i]))
  }

  lemma {:induction false} NothingDropped(s: string)
    requires forall i :: 0 <= i < |s| ==> !IsAsciiSpace(s[i])
    ensures DropSpace(s) == s
  {
    if s != "" { NothingDropped(s[1..]); }
  }

  lemma UrlValueSwaps(c: char)
    requires UrlLetter(c)
    ensures Letter(UrlValue(c)) == if c == '-' then '+' else if c == '_' then '/' else c
  {
  }

  /** Padding a url-alphabet string spells its sextets in the standard alphabet, then fills the group. */
  lemma PaddedSpells(param: string)
    requires forall i :: 0 <= i < |param| ==> UrlLetter(param[i])
    ensures Padded(param) == Letters(UrlValues(param)) + Equals(Padding(|param|))
  {
    var b64 := Replace(Replace(param, '-', '+'), '_', '/');
    var vs := UrlValues(param);
    forall i | 0 <= i < |param| ensures b64[i] == Letters(vs)[i] { }
    hide Letters, UrlValues, Replace, Equals, Padding, UrlLetter;
    assert b64 == Letters(vs);
  }

  lemma LettersInvert(vs: seq<Sextet>)
    ensures LetterValues(Letters(vs)) == Some(vs)
    ensures forall i :: 0 <= i < |vs| ==> Letters(vs)[i] != '=' && !IsAsciiSpace(Letters(vs)[i])
  {
    forall i | 0 <= i < |vs| ensures LetterValue(Letters(vs)[i]) == Some(vs[i]) && Letters(vs)[i] != '=' && !IsAsciiSpace(Letters(vs)[i]) {
      LetterInverts(vs[i]);
    }
    hide LetterValue, Letter;
    assert LetterValues(Letters(vs)).value == vs;
  }

  /** Unpadding takes back what padding added, unless three were added. */
  lemma UnpadInverts(s: string)
    requires s == "" || s[|s| - 1] != '='
    ensures var n := Padding(|s|);
            && (n != 3 ==> Unpad(s + Equals(n)) == s)
            && (n == 3 ==> var u := Unpad(s + Equals(n)); u != "" && u[|u| - 1] == '=')
  {
    var n := Padding(|s|);
    hide Padding, Equals;
    EqualsLength(n);
    var p := s + Equals(n);
    assert |p| == |s| + n;
    assert p[..|s|] == s;
    assert forall i :: |s| <= i < |p| ==> p[i] == '=';
    if n < 2 && s != "" { assert p[|s| - 1] == s[|s| - 1]; }
  }

  /** A url-alphabet string decodes exactly when its length is not 1 mod 4, to the bytes its letters spell. */
  lemma UrlDecodes(param: string)
    requires forall i :: 0 <= i < |param| ==> UrlLetter(param[i])
    ensures Atob(Padded(param)) == if |param| % 4 == 1 then None else Some(Bytes(UrlValues(param)))
  {
    hide UrlLetter, UrlValues, Padded, Unpad, Equals, LetterValue, LetterValues, Letters, IsAsciiSpace, Bytes, Padding;
    var vs := UrlValues(param);
    var s, n := Letters(vs), Padding(|param|);
    PaddedSpells(param);
    LettersInvert(vs);
    UnpadInverts(s);
    EqualsLength(n);
    var p := Padded(param);
    PaddingIsNoSpace();
    assert forall i :: 0 <= i < |p| ==> p[i] == if i < |s| then s[i] else '=';
    NothingDropped(p);
    assert |s| % 4 == 1 ==> LetterValues(Unpad(p)).None?;
  }

  lemma PaddingIsNoSpace()
    ensures !IsAsciiSpace('=') && LetterValue('=').None?
  {
  }

  /** Every byte string survives the trip through a link. */
  lemma RoundTrip(b: seq<Byte>)
    ensures Atob(Padded(ToUrl(b))) == Some(b)
  {
    UrlIsSafe(b);
    UrlSpellsSextets(b);
    BytesInvertSextets(b);
    var p := ToUrl(b);
    UrlDecodes(p);
    forall i | 0 <= i < |p| ensures UrlValues(p)[i] == Sextets(b)[i] {
      UrlFormInjective(UrlValue(p[i]), Sextets(b)[i]);
    }
    assert UrlValues(p) == Sextets(b);
  }

  lemma UrlFormInjective(v: Sextet, w: Sextet)
    requires UrlForm(v) == UrlForm(w)
    ensures v == w
  {
    LetterInverts(v);
    LetterInverts(w);
  }

  /** The spare bits of a final two- or three-letter group are zero. */
  predicate Canonical(v: seq<Sextet>) {
    match |v| % 4
    case 2 => v[|v| - 1] % 16 == 0
    case 3 => v[|v| - 1] % 4 == 0
    case _ => |v| % 4 == 0
  }

  lemma GroupInvertsBack(a: Sextet, b: Sextet, c: Sextet, d: Sextet)
    ensures var x, y, z := First8(a, b), Second8(b, c), Third8(c, d);
            && High6(x) == a && Cross4(x, y) == b && Cross2(y, z) == c && Low6(z) == d
            && (Cross4(x, 0) == b <==> b % 16 == 0) && (Cross2(y, 0) == c <==> c % 4 == 0)
  {
  }

  lemma TwoInvertBack(a: Sextet, b: Sextet)
    ensures Sextets(Bytes([a, b])) == [a, b] <==> b % 16 == 0
  {
    GroupInvertsBack(a, b, 0, 0);
    hide First8, Second8, Third8, High6, Cross4, Cross2, Low6;
    assert Sextets(Bytes([a, b])) == [a, Cross4(First8(a, b), 0)];
  }

  lemma ThreeInvertBack(a: Sextet, b: Sextet, c: Sextet)
    ensures Sextets(Bytes([a, b, c])) == [a, b, c] <==> c % 4 == 0
  {
    GroupInvertsBack(a, b, c, 0);
    hide First8, Second8, Third8, High6, Cross4, Cross2, Low6;
    assert Sextets(Bytes([a, b, c])) == [a, b, Cross2(Second8(b, c), 0)];
  }

  lemma ShortInvertsBack(v: seq<Sextet>)
    requires |v| < 4 && |v| != 1
    ensures Sextets(Bytes(v)) == v <==> Canonical(v)
  {
    if |v| == 2 {
      hide Sextets, Bytes;
      assert v == [v[0], v[1]];
      TwoInvertBack(v[0], v[1]);
    } else if |v| == 3 {
      hide Sextets, Bytes;
      assert v == [v[0], v[1], v[2]];
      ThreeInvertBack(v[0], v[1], v[2]);
    }
  }

  lemma {:induction false} SextetsInvertBytes(v: seq<Sextet>)
    requires |v| % 4 != 1
    ensures Sextets(Bytes(v)) == v <==> Canonical(v)
  {
    hide Bytes, Sextets, First8, Second8, Third8, High6, Cross4, Cross2, Low6, Canonical;
    if |v| < 4 {
      ShortInvertsBack(v);
    } else {
      var a, b, c, d, rest := v[0], v[1], v[2], v[3], v[4..];
      assert v == [a, b, c, d] + rest;
      BytesStep(a, b, c, d, rest);
      SextetsStep(First8(a, b), Second8(b, c), Third8(c, d), Bytes(rest));
      GroupInvertsBack(a, b, c, d);
      SextetsInvertBytes(rest);
      CanonicalIsLast(v);
      assert Sextets(Bytes(v)) == [a, b, c, d] + Sextets(Bytes(rest));
      assert Sextets(Bytes(v))[4..] == Sextets(Bytes(rest));
    }
  }

  lemma CanonicalIsLast(v: seq<Sextet>)
    requires |v| >= 4
    ensures Canonical(v) == Canonical(v[4..])
  {
    if |v| > 4 { assert v[4..][|v| - 5] == v[|v| - 1]; }
  }

  /** Links are canonical: of the url-alphabet strings that decode, encoding returns exactly those whose spare
      bits are zero, so no two encoder outputs name the same bytes and no other string is one. */
  lemma EncoderOutputs(param: string)
    requires forall i :: 0 <= i < |param| ==> UrlLetter(param[i])
    requires |param| % 4 != 1
    ensures Atob(Padded(param)).Some?
    ensures ToUrl(Atob(Padded(param)).value) == param <==> Canonical(UrlValues(param))
  {
    hide ToUrl, Sextets, Bytes, UrlForm, Canonical, Padded, Atob;
    UrlDecodes(param);
    var vs := UrlValues(param);
    var b := Bytes(vs);
    UrlSpellsSextets(b);
    SextetsInvertBytes(vs);
    if Canonical(vs) {
      assert ToUrl(b) == param;
    }
    if ToUrl(b) == param {
      forall i | 0 <= i < |param| ensures Sextets(b)[i] == vs[i] {
        UrlFormInjective(Sextets(b)[i], vs[i]);
      }
      assert Sextets(b) == vs;
    }
  }
}
