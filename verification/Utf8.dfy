/** UTF-8 as RFC 3629 defines it, the replacing decoder behind Buffer.toString, and the rule by which
    Node's StringDecoder holds back an incomplete tail. The last two belong to the platform. */
module Utf8 {
  type Byte = b: int | 0 <= b < 256
  type Scalar = c: int | 0 <= c <= 0x10FFFF

  const Replacement: Scalar := 0xFFFD

  // ---- encoding: RFC 3629, section 3 -----------------------------------------------------------------

  predicate IsScalar(c: Scalar) { !(0xD800 <= c < 0xE000) }

  function Encode(c: Scalar): (s: seq<Byte>)
    ensures 1 <= |s| <= 4
  {
    var d := c / 64;
    var t := d / 64;
    if c < 0x80 then [c]
    else if c < 0x800 then [0xC0 + d, 0x80 + c % 64]
    else if c < 0x10000 then [0xE0 + t, 0x80 + d % 64, 0x80 + c % 64]
    else [0xF0 + t / 64, 0x80 + t % 64, 0x80 + d % 64, 0x80 + c % 64]
  }

  function EncodeAll(cs: seq<Scalar>): seq<Byte> {
    if cs == [] then [] else Encode(cs[0]) + EncodeAll(cs[1..])
  }

  // ---- decoding with replacement ---------------------------------------------------------------------

  predicate IsContinuation(b: Byte) { 0x80 <= b < 0xC0 }

  /** The length a lead byte calls for; 0 for a byte that leads nothing. */
  function Need(lead: Byte): nat {
    if lead < 0x80 then 1
    else if 0xC2 <= lead < 0xE0 then 2
    else if 0xE0 <= lead < 0xF0 then 3
    else if 0xF0 <= lead < 0xF5 then 4
    else 0
  }

  /** RFC 3629, section 4: the second byte excludes overlong forms, surrogates and values past the end. */
  predicate SecondFits(lead: Byte, b: Byte) {
    match lead
    case 0xE0 => 0xA0 <= b < 0xC0
    case 0xED => 0x80 <= b < 0xA0
    case 0xF0 => 0x90 <= b < 0xC0
    case 0xF4 => 0x80 <= b < 0x90
    case _ => IsContinuation(b)
  }

  /** The first `k` bytes begin, or are, one well-formed character. */
  predicate Fits(s: seq<Byte>, k: nat) {
    && 1 <= k <= |s| && k <= Need(s[0])
    && (k >= 2 ==> SecondFits(s[0], s[1]))
    && (k >= 3 ==> IsContinuation(s[2]))
    && (k >= 4 ==> IsContinuation(s[3]))
  }

  function Fitting(s: seq<Byte>): (k: nat)
    ensures k <= 4 && k <= |s|
    ensures k > 0 ==> Fits(s, k)
    ensures !Fits(s, k + 1)
  {
    if !Fits(s, 1) then 0 else if !Fits(s, 2) then 1 else if !Fits(s, 3) then 2 else if !Fits(s, 4) then 3 else 4
  }

  /** Append six payload bits. */
  function Shift(high: int, bits: int): int { high * 64 + bits }

  function Value(s: seq<Byte>): (c: Scalar)
    requires s != [] && Fits(s, Need(s[0]))
  {
    match Need(s[0])
    case 1 => s[0]
    case 2 => Shift(Shift(0, s[0] - 0xC0), s[1] - 0x80)
    case 3 => Shift(Shift(Shift(0, s[0] - 0xE0), s[1] - 0x80), s[2] - 0x80)
    case _ => Shift(Shift(Shift(Shift(0, s[0] - 0xF0), s[1] - 0x80), s[2] - 0x80), s[3] - 0x80)
  }

  datatype Unit = Unit(c: Scalar, length: nat)

  /** One step of the decoder: a whole character, or U+FFFD for the longest ill-formed beginning. */
  function First(s: seq<Byte>): (u: Unit)
    requires s != []
    ensures 1 <= u.length <= |s|
  {
    var k := Fitting(s);
    if k > 0 && k == Need(s[0]) then Unit(Value(s), k) else Unit(Replacement, if k == 0 then 1 else k)
  }

  function Text(s: seq<Byte>): seq<Scalar> {
    if s == [] then [] else [First(s).c] + Text(s[First(s).length..])
  }

  // ---- StringDecoder.write ---------------------------------------------------------------------------

  function Announced(b: Byte): nat {
    if 0xC0 <= b < 0xE0 then 2 else if 0xE0 <= b < 0xF0 then 3 else if 0xF0 <= b < 0xF8 then 4 else 0
  }

  /** Walk back from the end, `n` bytes so far, to the byte that starts the last character. */
  function ScanBack(s: seq<Byte>, n: nat): (held: nat)
    requires 1 <= n <= |s| && n <= 4
    ensures held <= |s| && held <= 3
    ensures held > 0 ==> !IsContinuation(s[|s| - held])
    decreases 4 - n
  {
    var b := s[|s| - n];
    if IsContinuation(b) then
      if n >= 4 || n == |s| then 0 else ScanBack(s, n + 1)
    else if n >= Announced(b) then 0
    else n
  }

  function HeldBack(s: seq<Byte>): (held: nat)
    ensures held <= |s| && held <= 3
    ensures held > 0 ==> !IsContinuation(s[|s| - held])
  {
    if s == [] || s[|s| - 1] < 0x80 then 0 else ScanBack(s, 1)
  }

  /** What `new StringDecoder("utf8").write(s)` returns. */
  function Decoded(s: seq<Byte>): seq<Scalar> {
    Text(s[..|s| - HeldBack(s)])
  }

  // ---- any bytes: cutting never garbles ----------------------------------------------------------------

  /** No tail of `s` is the beginning of a character that wants more bytes. */
  ghost predicate Closed(s: seq<Byte>) {
    forall i :: 0 <= i < |s| ==> !Unfinished(s[i..])
  }

  predicate Unfinished(s: seq<Byte>) { Fits(s, |s|) && |s| < Need(s[0]) }

  lemma FirstIsLocal(a: seq<Byte>, b: seq<Byte>)
    requires a != [] && (b == [] || !IsContinuation(b[0]) || !Unfinished(a))
    ensures First(a + b) == First(a)
  {
    var s := a + b;
    assert forall k :: 0 <= k <= |a| ==> (Fits(s, k) <==> Fits(a, k));
    var k := Fitting(a);
    if k < |a| {
      assert !Fits(s, k + 1);
    } else if b != [] {
      assert s[|a|] == b[0];
    }
    assert Fitting(s) == k;
  }

  lemma {:induction false} TextSplits(a: seq<Byte>, b: seq<Byte>)
    requires b == [] || !IsContinuation(b[0]) || Closed(a)
    ensures Text(a + b) == Text(a) + Text(b)
    decreases |a|
  {
    if a == [] {
      assert a + b == b;
    } else {
      assert a[0..] == a;
      FirstIsLocal(a, b);
      var n := First(a).length;
      assert (a + b)[n..] == a[n..] + b;
      assert forall i :: 0 <= i < |a[n..]| ==> a[n..][i..] == a[n + i..];
      TextSplits(a[n..], b);
    }
  }

  lemma {:induction false} ScanReachesLead(s: seq<Byte>, n: nat, k: nat)
    requires 1 <= n <= k <= |s| && k <= 3 && Unfinished(s[|s| - k..])
    ensures ScanBack(s, n) > 0
    decreases k - n
  {
    var tail := s[|s| - k..];
    assert tail[k - n] == s[|s| - n];
    if n < k { ScanReachesLead(s, n + 1, k); }
  }

  lemma NothingHeldIsClosed(s: seq<Byte>)
    requires HeldBack(s) == 0
    ensures Closed(s)
  {
    forall i | 0 <= i < |s| ensures !Unfinished(s[i..]) {
      if Unfinished(s[i..]) {
        var tail := s[i..];
        assert tail[|tail| - 1] == s[|s| - 1];
        ScanReachesLead(s, 1, |s| - i);
        assert false;
      }
    }
  }

  lemma CutSplits(s: seq<Byte>, n: nat)
    requires n <= |s|
    ensures var m := n - HeldBack(s[..n]); Text(s) == Text(s[..m]) + Text(s[m..])
  {
    hide Text, IsContinuation, HeldBack, Closed;
    var cut := s[..n];
    var m := n - HeldBack(cut);
    if HeldBack(cut) > 0 {
      assert s[m..][0] == cut[m];
    } else {
      NothingHeldIsClosed(cut);
    }
    TextSplits(s[..m], s[m..]);
    assert s == s[..m] + s[m..];
  }

  /** Whatever the bytes, a stream cut anywhere decodes to a beginning of what the whole stream reads as. */
  lemma CutIsPrefix(s: seq<Byte>, n: nat)
    requires n <= |s|
    ensures Decoded(s[..n]) <= Text(s)
  {
    hide Text, HeldBack;
    CutSplits(s, n);
    var m := n - HeldBack(s[..n]);
    assert s[..n][..m] == s[..m];
  }

  /** Read to its end, a stream decodes to all of its text if and only if no tail is held back. */
  lemma AllTextIffNothingHeld(s: seq<Byte>)
    ensures Decoded(s) == Text(s) <==> HeldBack(s) == 0
  {
    hide HeldBack;
    CutSplits(s, |s|);
    assert s[..|s|] == s;
    var m := |s| - HeldBack(s);
    assert HeldBack(s) > 0 ==> |Text(s[m..])| > 0;
  }

  // ---- valid text: the longest whole-character prefix --------------------------------------------------

  ghost predicate Valid(cs: seq<Scalar>) { forall c :: c in cs ==> IsScalar(c) }

  lemma EncodingShape(c: Scalar)
    requires IsScalar(c)
    ensures var e := Encode(c); Need(e[0]) == |e| && Fits(e, |e|) && Value(e) == c
    ensures Announced(Encode(c)[0]) == if |Encode(c)| == 1 then 0 else |Encode(c)|
    ensures |Encode(c)| == 1 <==> Encode(c)[0] < 0x80
    ensures !IsContinuation(Encode(c)[0])
    ensures forall i :: 1 <= i < |Encode(c)| ==> IsContinuation(Encode(c)[i])
  {
  }

  lemma EncodingFits(c: Scalar, rest: seq<Byte>)
    requires IsScalar(c)
    ensures First(Encode(c) + rest) == Unit(c, |Encode(c)|)
  {
    EncodingShape(c);
    hide Encode, Need, Value, Fits;
  }

  lemma {:induction false} DecodingInverts(cs: seq<Scalar>)
    requires Valid(cs)
    ensures Text(EncodeAll(cs)) == cs
  {
    if cs != [] {
      EncodingFits(cs[0], EncodeAll(cs[1..]));
      assert EncodeAll(cs)[|Encode(cs[0])|..] == EncodeAll(cs[1..]);
      assert forall c :: c in cs[1..] ==> c in cs;
      DecodingInverts(cs[1..]);
    }
  }

  lemma {:induction false} EncodeAppends(a: seq<Scalar>, b: seq<Scalar>)
    ensures EncodeAll(a + b) == EncodeAll(a) + EncodeAll(b)
  {
    if a == [] {
      assert a + b == b;
    } else {
      assert (a + b)[1..] == a[1..] + b;
      EncodeAppends(a[1..], b);
    }
  }

  /** Of a stream ending `r` bytes into a character, exactly those bytes are held back unless it is whole. */
  lemma HeldIsTheCutCharacter(before: seq<Byte>, c: Scalar, r: nat)
    requires IsScalar(c) && 0 < r <= |Encode(c)|
    ensures HeldBack(before + Encode(c)[..r]) == if r == |Encode(c)| then 0 else r
  {
    EncodingShape(c);
    hide Encode, Announced, Need, Value, Fits;
    var e := Encode(c);
    var s := before + e[..r];
    assert s[|s| - 1] == e[r - 1];
  }

  /** How many whole characters fit in `n` bytes. */
  function WholeCharacters(cs: seq<Scalar>, n: nat): (k: nat)
    ensures k <= |cs|
  {
    if cs == [] || |Encode(cs[0])| > n then 0 else 1 + WholeCharacters(cs[1..], n - |Encode(cs[0])|)
  }

  lemma {:induction false} WholeCharactersIsGreatest(cs: seq<Scalar>, n: nat)
    ensures var k := WholeCharacters(cs, n);
            |EncodeAll(cs[..k])| <= n && (k < |cs| ==> |EncodeAll(cs[..k + 1])| > n)
  {
    var k := WholeCharacters(cs, n);
    if cs == [] || |Encode(cs[0])| > n {
      if cs != [] { assert cs[..1][0] == cs[0]; }
    } else {
      WholeCharactersIsGreatest(cs[1..], n - |Encode(cs[0])|);
      assert cs[..k][1..] == cs[1..][..k - 1];
      if k < |cs| { assert cs[..k + 1][1..] == cs[1..][..k]; }
    }
  }

  /** Valid text cut at `n` bytes decodes to the longest prefix of whole characters that fits in `n`. */
  lemma CutKeepsWholeCharacters(cs: seq<Scalar>, n: nat)
    requires Valid(cs) && n <= |EncodeAll(cs)|
    ensures Decoded(EncodeAll(cs)[..n]) == cs[..WholeCharacters(cs, n)]
  {
    hide Encode, HeldBack, Text, IsScalar;
    var k := WholeCharacters(cs, n);
    WholeCharactersIsGreatest(cs, n);
    hide WholeCharacters;
    var s := EncodeAll(cs)[..n];
    var body := EncodeAll(cs[..k]);
    assert cs == cs[..k] + cs[k..];
    EncodeAppends(cs[..k], cs[k..]);
    DecodingInverts(cs[..k]);
    var r := n - |body|;
    if r > 0 {
      assert k < |cs| && cs[k] in cs;
      assert cs[..k + 1] == cs[..k] + [cs[k]];
      EncodeAppends(cs[..k], [cs[k]]);
      assert EncodeAll([cs[k]]) == Encode(cs[k]);
      assert EncodeAll(cs[k..]) == Encode(cs[k]) + EncodeAll(cs[k..][1..]);
      assert s == body + Encode(cs[k])[..r];
      HeldIsTheCutCharacter(body, cs[k], r);
      assert s[..|body|] == body;
    } else {
      assert s == body;
      WholeTextHoldsNothing(cs[..k]);
      assert s[..|s|] == s;
    }
  }

  lemma WholeTextHoldsNothing(cs: seq<Scalar>)
    requires Valid(cs)
    ensures HeldBack(EncodeAll(cs)) == 0
  {
    if cs != [] {
      var k := |cs| - 1;
      assert cs == cs[..k] + [cs[k]];
      EncodeAppends(cs[..k], [cs[k]]);
      assert EncodeAll([cs[k]]) == Encode(cs[k]);
      var e := Encode(cs[k]);
      assert e[..|e|] == e;
      HeldIsTheCutCharacter(EncodeAll(cs[..k]), cs[k], |e|);
    }
  }
}
