/** The agent's matcher of kernel names against a bounded name filter, on bytes. */
module AgentNames {
  import opened Common
  import opened Utf8

  datatype Kind = Any | Exact | Prefix | Suffix | Contains

  /** The bytes of a C string: everything before the terminating NUL. */
  function Text(memory: seq<Byte>): (s: seq<Byte>) {
    if memory == [] || memory[0] == 0 then [] else [memory[0]] + Text(memory[1..])
  }

  lemma {:induction false} TextStops(memory: seq<Byte>)
    ensures Text(memory) <= memory && 0 !in Text(memory)
    ensures |Text(memory)| < |memory| ==> memory[|Text(memory)|] == 0
  {
    if memory != [] && memory[0] != 0 { TextStops(memory[1..]); }
  }

  lemma {:induction false} TextOfString(s: seq<Byte>, rest: seq<Byte>)
    requires 0 !in s
    ensures Text(s + [0] + rest) == s
  {
    if s == [] {
      assert (s + [0] + rest)[0] == 0;
    } else {
      assert (s + [0] + rest)[1..] == s[1..] + [0] + rest;
      TextOfString(s[1..], rest);
    }
  }

  lemma BufferText(buffer: seq<Byte>, name: seq<Byte>)
    requires |name| < |buffer| == NAME_LENGTH && buffer[..|name|] == name && buffer[|name|] == 0 && 0 !in name
    ensures Text(buffer) == name
  {
    TextOfString(name, buffer[|name| + 1..]);
    assert buffer == name + [0] + buffer[|name| + 1..];
  }

  /** A NUL within the memory, or memory enough to stop without one. */
  ghost predicate Readable(memory: seq<Byte>) { 0 in memory || |memory| >= NAME_LENGTH }

  lemma ReadableText(memory: seq<Byte>)
    requires Readable(memory)
    ensures |Text(memory)| < |memory| || |memory| >= NAME_LENGTH
  {
    TextStops(memory);
    assert |Text(memory)| == |memory| ==> Text(memory) == memory;
  }

  method BoundedNameLength(name: Option<seq<Byte>>) returns (length: nat)
    requires name.Some? ==> Readable(name.value)
    ensures length == if name.None? then 0 else Min(|Text(name.value)|, NAME_LENGTH)
  {
    if name.None? { return 0; }
    var memory := name.value;
    length := 0;
    ReadableText(memory);
    TextStops(memory);
    while length < NAME_LENGTH && memory[length] != 0
      invariant length <= NAME_LENGTH && length <= |Text(memory)|
    {
      length := length + 1;
    }
    assert length < |Text(memory)| ==> Text(memory)[length] == memory[length];
  }

  /** What the matcher accepts, for a filter `f` and a name `s`.  Only the first `NAME_LENGTH` bytes of a
      name are looked at, and a name that long has no visible end. */
  ghost predicate Accepts(kind: Kind, f: seq<Byte>, s: seq<Byte>) {
    match kind
    case Any => true
    case Exact => |f| < NAME_LENGTH && f == s
    case Prefix => |f| < NAME_LENGTH && f <= s
    case Suffix => |f| < NAME_LENGTH && |s| < NAME_LENGTH && |f| <= |s| && s[|s| - |f|..] == f
    case Contains => |f| < NAME_LENGTH && Occurs(f, s[..Min(|s|, NAME_LENGTH)])
  }

  /** `memcmp(f, s + offset, length) == 0` */
  predicate SameBytes(f: seq<Byte>, s: seq<Byte>, offset: nat, length: nat)
    requires length <= |f| && offset + length <= |s|
  {
    f[..length] == s[offset..offset + length]
  }

  /** The bytes of the strings, as the lengths found say. */
  lemma Lengths(filterName: seq<Byte>, record: seq<Byte>)
    requires |filterName| == NAME_LENGTH && Readable(record)
    ensures var f, s := Text(filterName), Text(record);
      && |f| <= |filterName| && f == filterName[..|f|]
      && |s| <= |record| && forall n :: 0 <= n <= |s| ==> s[..n] == record[..n]
  {
    TextStops(filterName);
    TextStops(record);
    assert Text(record) == record[..|Text(record)|];
  }

  method NameMatches(kind: Kind, filterName: seq<Byte>, recordName: Option<seq<Byte>>) returns (matches: bool)
    requires |filterName| == NAME_LENGTH
    requires recordName.Some? ==> Readable(recordName.value)
    ensures matches <==> Accepts(kind, Text(filterName), if recordName.None? then [] else Text(recordName.value))
  {
    hide Text;
    if kind == Any { return true; }
    var record := if recordName.None? then [0] else recordName.value;
    TextOfString([], []);
    assert [] + [0] + [] == [0];
    ghost var f, s := Text(filterName), Text(record);
    var filterLength := BoundedNameLength(Some(filterName));
    var recordLength := BoundedNameLength(Some(record));
    if filterLength == NAME_LENGTH { return false; }
    Lengths(filterName, record);
    match kind
    case Exact =>
      matches := recordLength < NAME_LENGTH && filterLength == recordLength && SameBytes(filterName, record, 0, filterLength);
    case Prefix =>
      matches := filterLength <= recordLength && SameBytes(filterName, record, 0, filterLength);
      assert filterLength <= recordLength ==> s[..filterLength] == record[..filterLength];
    case Suffix =>
      matches := recordLength < NAME_LENGTH && filterLength <= recordLength
                 && SameBytes(filterName, record, recordLength - filterLength, filterLength);
      assert recordLength < NAME_LENGTH ==> s == s[..recordLength] == record[..recordLength];
    case Contains =>
      if filterLength == 0 {
        assert OccursAt(f, s[..recordLength], 0);
        return true;
      }
      matches := Search(filterName, record, filterLength, recordLength, f, s[..recordLength]);
  }

  /** The loop over the offsets. */
  method Search(filterName: seq<Byte>, record: seq<Byte>, filterLength: nat, recordLength: nat,
                ghost f: seq<Byte>, ghost s: seq<Byte>)
    returns (found: bool)
    requires filterLength <= |filterName| && f == filterName[..filterLength]
    requires recordLength <= |record| && s == record[..recordLength]
    ensures found <==> Occurs(f, s)
  {
    var offset := 0;
    while offset + filterLength <= recordLength
      invariant forall i :: 0 <= i < offset ==> !OccursAt(f, s, i)
    {
      assert s[offset..offset + filterLength] == record[offset..offset + filterLength];
      if SameBytes(filterName, record, offset, filterLength) {
        assert OccursAt(f, s, offset);
        return true;
      }
      offset := offset + 1;
    }
    return false;
  }
}
