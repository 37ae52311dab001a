/** UTF-8 as section 3 of RFC 3629 defines it, its self-synchronisation, and the agent's
    bounded copy of an NVTX range name.
 */
module Utf8 {
  import opened Common

  type Byte = b: nat | b < 256

  /** The bytes of a C string, without its terminator. */
  type CString = bytes: seq<Byte> | 0 !in bytes

  /** A Unicode scalar value: any code point that is not a surrogate. */
  type Scalar = c: nat | c < 0xD800 || 0xE000 <= c < 0x110000

  function EncodeChar(c: Scalar): (bytes: seq<Byte>)
    ensures 1 <= |bytes| <= 4
  {
    if c < 0x80 then [c]
    else if c < 0x800 then [0xC0 + c / 0x40, 0x80 + c % 0x40]
    else if c < 0x10000 then [0xE0 + c / 0x1000, 0x80 + c / 0x40 % 0x40, 0x80 + c % 0x40]
    else [0xF0 + c / 0x40000, 0x80 + c / 0x1000 % 0x40, 0x80 + c / 0x40 % 0x40, 0x80 + c % 0x40]
  }

  function Encode(s: seq<Scalar>): (bytes: seq<Byte>) {
    if s == [] then [] else EncodeChar(s[0]) + Encode(s[1..])
  }

  ghost predicate Valid(bytes: seq<Byte>) {
    exists s: seq<Scalar> :: Encode(s) == bytes
  }

  /** `(b & 0xc0) == 0x80` */
  predicate IsContinuation(b: Byte) { b / 0x40 == 2 }

  /** The character length that a leading byte announces; one for every other byte. */
  function ExpectedLength(first: Byte): (n: nat) {
    if first / 0x20 == 6 then 2
    else if first / 0x10 == 0xE then 3
    else if first / 8 == 0x1E then 4
    else 1
  }

  // One character

  lemma CharShape(c: Scalar)
    ensures var e := EncodeChar(c);
            && !IsContinuation(e[0]) && ExpectedLength(e[0]) == |e|
            && (forall i :: 1 <= i < |e| ==> IsContinuation(e[i]))
            && (e[0] == 0 <==> c == 0)
  {
  }

  lemma CharInjective(c: Scalar, d: Scalar)
    requires EncodeChar(c) == EncodeChar(d)
    ensures c == d
  {
    var e := EncodeChar(c);
    CharShape(c);
    CharShape(d);
    assert e[0] == EncodeChar(d)[0];
    if |e| == 2 {
      assert e[1] == EncodeChar(d)[1];
    } else if |e| == 3 {
      assert e[1] == EncodeChar(d)[1] && e[2] == EncodeChar(d)[2];
      assert c / 0x1000 == c / 0x40 / 0x40 && d / 0x1000 == d / 0x40 / 0x40;
    } else if |e| == 4 {
      assert e[1] == EncodeChar(d)[1] && e[2] == EncodeChar(d)[2] && e[3] == EncodeChar(d)[3];
      assert c / 0x1000 == c / 0x40 / 0x40 && d / 0x1000 == d / 0x40 / 0x40;
      assert c / 0x40000 == c / 0x1000 / 0x40 && d / 0x40000 == d / 0x1000 / 0x40;
    }
  }

  /** No character is a proper prefix of another one. */
  lemma PrefixCode(c: Scalar, d: Scalar, x: seq<Byte>, y: seq<Byte>)
    requires EncodeChar(c) + x == EncodeChar(d) + y
    ensures c == d && x == y
  {
    var e, f := EncodeChar(c), EncodeChar(d);
    CharShape(c);
    CharShape(d);
    assert e[0] == (e + x)[0] == (f + y)[0] == f[0];
    assert e == (e + x)[..|e|] == (f + y)[..|f|] == f;
    assert x == (e + x)[|e|..] && y == (f + y)[|f|..];
    CharInjective(c, d);
  }

  // Strings

  lemma {:induction false} EncodeConcat(s: seq<Scalar>, t: seq<Scalar>)
    ensures Encode(s + t) == Encode(s) + Encode(t)
  {
    if s == [] {
      assert s + t == t;
    } else {
      assert (s + t)[1..] == s[1..] + t;
      EncodeConcat(s[1..], t);
    }
  }

  /** The encoding is a prefix code on strings: bytes continue after `t` only where
      characters do. */
  lemma {:induction false} EncodePrefix(s: seq<Scalar>, t: seq<Scalar>)
    ensures Encode(t) <= Encode(s) <==> t <= s
  {
    hide EncodeChar;
    if t <= s {
      EncodeConcat(t, s[|t|..]);
      assert s == t + s[|t|..];
    }
    if Encode(t) <= Encode(s) && t != [] {
      assert s != [];
      var rest := Encode(s)[|Encode(t)|..];
      assert Encode(s) == Encode(t) + rest;
      assert EncodeChar(t[0]) + (Encode(t[1..]) + rest) == EncodeChar(s[0]) + Encode(s[1..]);
      PrefixCode(t[0], s[0], Encode(t[1..]) + rest, Encode(s[1..]));
      EncodePrefix(s[1..], t[1..]);
      assert t == [t[0]] + t[1..] && s == [s[0]] + s[1..];
    }
  }

  lemma EncodeInjective(s: seq<Scalar>, t: seq<Scalar>)
    ensures Encode(s) == Encode(t) <==> s == t
  {
    EncodePrefix(s, t);
    EncodePrefix(t, s);
  }

  /** A position whose byte is not a continuation byte is a character boundary. */
  lemma {:induction false} Boundary(s: seq<Scalar>, i: nat) returns (k: nat)
    requires i <= |Encode(s)|
    requires i == |Encode(s)| || !IsContinuation(Encode(s)[i])
    ensures k <= |s| && |Encode(s[..k])| == i && Encode(s)[i..] == Encode(s[k..])
  {
    hide EncodeChar, IsContinuation;
    if i == 0 {
      k := 0;
      assert s[..0] == [] && s[0..] == s;
    } else {
      var e := EncodeChar(s[0]);
      FirstBoundary(s, i);
      var j := Boundary(s[1..], i - |e|);
      k := j + 1;
      assert s[..k][1..] == s[1..][..j] && s[k..] == s[1..][j..];
      assert Encode(s)[i..] == Encode(s[1..])[i - |e|..];
    }
  }

  lemma FirstBoundary(s: seq<Scalar>, i: nat)
    requires s != [] && 0 < i <= |Encode(s)|
    requires i == |Encode(s)| || !IsContinuation(Encode(s)[i])
    ensures var e := EncodeChar(s[0]);
      && |e| <= i <= |e| + |Encode(s[1..])| == |Encode(s)|
      && (i == |Encode(s)| || !IsContinuation(Encode(s[1..])[i - |e|]))
  {
    hide EncodeChar, IsContinuation, ExpectedLength;
    var e := EncodeChar(s[0]);
    CharShape(s[0]);
    assert Encode(s) == e + Encode(s[1..]);
    assert forall j :: 1 <= j < |e| ==> Encode(s)[j] == e[j];
  }

  /** Self-synchronisation: the bytes of a non-empty string occur at a byte offset exactly
      where its characters occur. */
  lemma EncodeOccurs(s: seq<Scalar>, t: seq<Scalar>, i: nat) returns (k: nat)
    requires t != [] && i + |Encode(t)| <= |Encode(s)|
    requires Encode(s)[i..i + |Encode(t)|] == Encode(t)
    ensures k + |t| <= |s| && s[k..k + |t|] == t && |Encode(s[..k])| == i
  {
    CharShape(t[0]);
    assert Encode(s)[i] == Encode(s)[i..i + |Encode(t)|][0] == Encode(t)[0];
    k := Boundary(s, i);
    assert Encode(t) <= Encode(s)[i..];
    EncodePrefix(s[k..], t);
    assert t == s[k..][..|t|] == s[k..k + |t|];
  }

  lemma EncodeAt(s: seq<Scalar>, k: nat, t: seq<Scalar>)
    requires k + |t| <= |s| && s[k..k + |t|] == t
    ensures var i := |Encode(s[..k])|;
            i + |Encode(t)| <= |Encode(s)| && Encode(s)[i..i + |Encode(t)|] == Encode(t)
  {
    hide EncodeChar, Encode;
    var rest := s[k + |t|..];
    assert s == s[..k] + (t + rest);
    EncodeConcat(s[..k], t + rest);
    EncodeConcat(t, rest);
  }

  // Validation

  /** The payload bits of one character's bytes. */
  function Payload(b: seq<nat>): (code: nat)
    requires 1 <= |b| <= 4
  {
    match |b|
    case 1 => b[0]
    case 2 => b[0] % 0x20 * 0x40 + b[1] % 0x40
    case 3 => b[0] % 0x10 * 0x1000 + b[1] % 0x40 * 0x40 + b[2] % 0x40
    case _ => b[0] % 8 * 0x40000 + b[1] % 0x40 * 0x1000 + b[2] % 0x40 * 0x40 + b[3] % 0x40
  }

  /** The character that starts the bytes, if they start with one. */
  function DecodeFirst(b: seq<Byte>): (r: Option<Scalar>)
    ensures r.Some? ==> EncodeChar(r.value) <= b
  {
    if b == [] || |b| < ExpectedLength(b[0]) then None else
    var code := Payload(b[..ExpectedLength(b[0])]);
    if (code < 0xD800 || 0xE000 <= code < 0x110000) && EncodeChar(code) <= b then Some(code) else None
  }

  /** What `str::from_utf8` accepts. */
  predicate IsUtf8(b: seq<Byte>) {
    b == [] || (DecodeFirst(b).Some? && IsUtf8(b[|EncodeChar(DecodeFirst(b).value)|..]))
  }

  lemma PayloadOfChar(c: Scalar)
    ensures Payload(EncodeChar(c)) == c
  {
    Sextets(c);
    Leads(c);
    var e := EncodeChar(c);
    if |e| == 2 {
      assert e[0] % 0x20 == c / 0x40 && e[1] % 0x40 == c % 0x40;
    } else if |e| == 3 {
      assert e[0] % 0x10 == c / 0x1000 && e[1] % 0x40 == c / 0x40 % 0x40 && e[2] % 0x40 == c % 0x40;
    }
  }

  /** Where the payload bits of the leading byte come from. */
  lemma Leads(c: Scalar)
    ensures 0x80 <= c < 0x800 ==> (0xC0 + c / 0x40) % 0x20 == c / 0x40
    ensures 0x800 <= c < 0x10000 ==> (0xE0 + c / 0x1000) % 0x10 == c / 0x1000
    ensures 0x10000 <= c ==> (0xF0 + c / 0x40000) % 8 == c / 0x40000
    ensures (0x80 + c % 0x40) % 0x40 == c % 0x40
    ensures (0x80 + c / 0x40 % 0x40) % 0x40 == c / 0x40 % 0x40
    ensures (0x80 + c / 0x1000 % 0x40) % 0x40 == c / 0x1000 % 0x40
  {
  }

  lemma Sextets(c: nat)
    ensures c == c / 0x40 * 0x40 + c % 0x40
    ensures c / 0x40 == c / 0x1000 * 0x40 + c / 0x40 % 0x40
    ensures c / 0x1000 == c / 0x40000 * 0x40 + c / 0x1000 % 0x40
  {
  }

  lemma DecodeFirstOfChar(c: Scalar, rest: seq<Byte>)
    ensures DecodeFirst(EncodeChar(c) + rest) == Some(c)
  {
    CharShape(c);
    PayloadOfChar(c);
    var b := EncodeChar(c) + rest;
    hide EncodeChar, Payload;
    assert b[0] == EncodeChar(c)[0];
    assert b[..|EncodeChar(c)|] == EncodeChar(c);
  }

  lemma {:induction false} ValidIff(b: seq<Byte>)
    ensures IsUtf8(b) <==> Valid(b)
  {
    hide EncodeChar;
    if IsUtf8(b) {
      if b == [] {
        assert Encode([]) == b;
      } else {
        var c := DecodeFirst(b).value;
        var rest := b[|EncodeChar(c)|..];
        ValidIff(rest);
        var s: seq<Scalar> :| Encode(s) == rest;
        assert ([c] + s)[1..] == s;
        assert Encode([c] + s) == b;
      }
    }
    if Valid(b) && b != [] {
      var s: seq<Scalar> :| Encode(s) == b;
      DecodeFirstOfChar(s[0], Encode(s[1..]));
      assert b[|EncodeChar(s[0])|..] == Encode(s[1..]);
      ValidIff(Encode(s[1..]));
    }
  }

  // The bounded copies

  /** A missing name is an empty one. */
  function BytesOf(name: Option<seq<Byte>>): (bytes: seq<Byte>) { if name.None? then [] else name.value }

  /** What a buffer holds of a kernel, function or API name: at most its first 127 bytes. */
  function CutName(name: seq<Byte>): (cut: seq<Byte>)
    ensures |cut| < NAME_LENGTH
  {
    if |name| < NAME_LENGTH then name else name[..NAME_LENGTH - 1]
  }

  method CopyName(destination: array<Byte>, source: Option<seq<Byte>>)
    requires destination.Length == NAME_LENGTH
    requires source.Some? ==> 0 !in source.value
    modifies destination
    ensures var cut := CutName(BytesOf(source));
      destination[..|cut|] == cut && destination[|cut|] == 0
  {
    if source == None {
      destination[0] := 0;
      return;
    }
    var bytes := source.value;
    var index := 0;
    while index + 1 < NAME_LENGTH && index < |bytes|
      invariant index <= |bytes| && index < NAME_LENGTH
      invariant destination[..index] == bytes[..index]
    {
      destination[index] := bytes[index];
      index := index + 1;
    }
    destination[index] := 0;
  }


  /** One past the last byte that is not a continuation byte, or zero. */
  function LeadScan(d: seq<Byte>, n: nat): (lead: nat)
    requires n <= |d|
    ensures lead <= n
    ensures forall i :: lead <= i < n ==> IsContinuation(d[i])
    ensures lead > 0 ==> !IsContinuation(d[lead - 1])
  {
    if n > 0 && IsContinuation(d[n - 1]) then LeadScan(d, n - 1) else n
  }

  /** Where the copy of a source that does not fit is cut. */
  function CutLength(d: seq<Byte>): (n: nat)
    ensures n <= |d|
  {
    var lead := LeadScan(d, |d|);
    if lead > 0 && ExpectedLength(d[lead - 1]) > |d| - (lead - 1) then lead - 1 else |d|
  }

  function StoredLength(source: seq<Byte>): (n: nat)
    ensures n <= |source| && n < NAME_LENGTH
  {
    if |source| < NAME_LENGTH then |source| else CutLength(source[..NAME_LENGTH - 1])
  }

  /** Copies a NUL-free source, or none, into the buffer and terminates it; reports whether
      the whole source was stored. */
  method CopyNvtxName(destination: array<Byte>, source: Option<seq<Byte>>) returns (complete: bool)
    requires destination.Length == NAME_LENGTH
    requires source.Some? ==> 0 !in source.value
    modifies destination
    ensures complete <==> source == None || |source.value| < NAME_LENGTH
    ensures source == None ==> destination[0] == 0
    ensures source.Some? ==>
              var n := StoredLength(source.value);
              destination[..n] == source.value[..n] && destination[n] == 0
  {
    if source == None {
      destination[0] := 0;
      return true;
    }
    var bytes := source.value;
    var index := 0;
    while index + 1 < NAME_LENGTH && index < |bytes|
      invariant index <= |bytes| && index < NAME_LENGTH
      invariant destination[..index] == bytes[..index]
    {
      destination[index] := bytes[index];
      index := index + 1;
    }
    complete := index == |bytes|;
    if !complete && index > 0 {
      var lead := index;
      while lead > 0 && IsContinuation(destination[lead - 1])
        invariant lead <= index == NAME_LENGTH - 1
        invariant destination[..index] == bytes[..index]
        invariant LeadScan(bytes[..index], index) == LeadScan(bytes[..index], lead)
      {
        assert destination[lead - 1] == destination[..index][lead - 1] == bytes[..index][lead - 1];
        lead := lead - 1;
      }
      if lead > 0 {
        lead := lead - 1;
        assert destination[lead] == destination[..index][lead] == bytes[..index][lead];
        var expected := ExpectedLength(destination[lead]);
        if expected > index - lead {
          assert destination[..lead] == destination[..index][..lead];
          index := lead;
        }
      }
    }
    destination[index] := 0;
  }

  /** The number of leading characters that fit in `budget` bytes. */
  function FitCount(s: seq<Scalar>, budget: nat): (m: nat)
    ensures m <= |s|
  {
    if s == [] || |EncodeChar(s[0])| > budget then 0
    else 1 + FitCount(s[1..], budget - |EncodeChar(s[0])|)
  }

  lemma {:induction false} FitIsLongest(s: seq<Scalar>, budget: nat)
    ensures var m := FitCount(s, budget);
            && |Encode(s[..m])| <= budget
            && (m < |s| ==> |Encode(s[..m + 1])| > budget)
  {
    var m := FitCount(s, budget);
    if m > 0 {
      FitIsLongest(s[1..], budget - |EncodeChar(s[0])|);
      assert s[..m][1..] == s[1..][..m - 1];
      if m < |s| { assert s[..m + 1][1..] == s[1..][..m]; }
    } else if s != [] {
      assert s[..1][1..] == [];
    }
  }

  lemma EncodeSnoc(s: seq<Scalar>, c: Scalar)
    ensures Encode(s + [c]) == Encode(s) + EncodeChar(c)
  {
    hide EncodeChar;
    EncodeConcat(s, [c]);
    assert Encode([c]) == EncodeChar(c) + Encode([]) == EncodeChar(c);
  }

  lemma EncodeSplit(s: seq<Scalar>, m: nat)
    requires m < |s|
    ensures Encode(s[..m + 1]) == Encode(s[..m]) + EncodeChar(s[m])
  {
    assert s[..m] + [s[m]] == s[..m + 1];
    EncodeSnoc(s[..m], s[m]);
  }

  lemma EncodeMonotone(s: seq<Scalar>, p: seq<Scalar>)
    requires p <= s
    ensures Encode(p) <= Encode(s)
  {
    EncodeConcat(p, s[|p|..]);
    assert p + s[|p|..] == s;
  }

  /** Bytes that end inside or right after a character are cut before or after it. */
  lemma CutAtLast(d: seq<Byte>, start: nat, c: Scalar, k: nat)
    requires 1 <= k <= |EncodeChar(c)| && start + k == |d|
    requires d[start..] == EncodeChar(c)[..k]
    ensures CutLength(d) == if k == |EncodeChar(c)| then |d| else start
  {
    CharShape(c);
    assert d[start] == d[start..][0];
    forall i | start + 1 <= i < |d| ensures IsContinuation(d[i]) {
      assert d[i] == d[start..][i - start];
    }
    var lead := LeadScan(d, |d|);
    assert lead == start + 1;
  }

  /** For every UTF-8 source the stored name is the longest prefix of at most 127 bytes that
      ends on a character boundary, hence itself UTF-8. */
  lemma StoresLongestPrefix(s: seq<Scalar>)
    ensures var m := FitCount(s, NAME_LENGTH - 1);
            && StoredLength(Encode(s)) == |Encode(s[..m])|
            && Encode(s)[..StoredLength(Encode(s))] == Encode(s[..m])
            && Valid(Encode(s)[..StoredLength(Encode(s))])
            && (m == |s| <==> |Encode(s)| < NAME_LENGTH)
  {
    hide EncodeChar, Encode;
    var m := FitCount(s, NAME_LENGTH - 1);
    FitIsLongest(s, NAME_LENGTH - 1);
    if m == |s| {
      assert s[..m] == s;
    } else {
      EncodeSplit(s, m);
      EncodeMonotone(s, s[..m + 1]);
      var head := Encode(s[..m]);
      var d := Encode(s)[..NAME_LENGTH - 1];
      var k := NAME_LENGTH - 1 - |head|;
      assert d == Encode(s[..m + 1])[..NAME_LENGTH - 1];
      if k > 0 {
        assert d[|head|..] == EncodeChar(s[m])[..k];
        CutAtLast(d, |head|, s[m], k);
      } else {
        EncodeSplit(s, m - 1);
        assert d == head;
        CutAtLast(d, |Encode(s[..m - 1])|, s[m - 1], |EncodeChar(s[m - 1])|);
      }
    }
  }
}
