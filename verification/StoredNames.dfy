/** The two filters that an activity passes before it becomes a record: one on its full name, and one on the
    name as the record holds it.
 */
module StoredNames {
  import opened Common
  import opened Utf8
  import opened AgentNames
  import opened NameFilter

  /** A capture filter whose kind, domain and direction fit the activity.  An activity has a start and an end
      record; a filter of one of them is `own` for that record and not for the other. */
  datatype Slot = Slot(own: bool, kind: Kind, literal: seq<Scalar>)

  /** What lowering produces: no literal, or one that fits the buffer. */
  ghost predicate Lowered(f: Slot) {
    if f.kind == Any then f.literal == [] else f.literal != [] && |Encode(f.literal)| < NAME_LENGTH
  }

  ghost predicate Fits(f: Slot, bytes: seq<Byte>) { Accepts(f.kind, Encode(f.literal), bytes) }

  /** Some filter of either record accepts the full name. */
  ghost predicate Admitted(filters: seq<Slot>, name: seq<Byte>) {
    exists f :: f in filters && Fits(f, name)
  }

  /** Some filter of this record accepts the stored name. */
  ghost predicate StoredFits(filters: seq<Slot>, stored: seq<Byte>) {
    exists f :: f in filters && f.own && Fits(f, stored)
  }

  ghost predicate Enqueued(filters: seq<Slot>, name: seq<Byte>, stored: seq<Byte>) {
    Admitted(filters, name) && StoredFits(filters, stored)
  }

  // The filters as the agent applies them

  /** The loop over the filters; the second pass looks at the record's own only. */
  method AnyMatches(filters: seq<Slot>, ownOnly: bool, record: Option<seq<Byte>>) returns (found: bool)
    requires forall f :: f in filters ==> |Encode(f.literal)| < NAME_LENGTH && 0 !in f.literal
    requires record.Some? ==> Readable(record.value)
    ensures var name := if record.None? then [] else Text(record.value);
      found <==> if ownOnly then StoredFits(filters, name) else Admitted(filters, name)
  {
    hide Encode, Text, Accepts, Padded;
    ghost var name := if record.None? then [] else Text(record.value);
    for i := 0 to |filters|
      invariant forall j :: 0 <= j < i ==> (ownOnly && !filters[j].own) || !Fits(filters[j], name)
    {
      var f := filters[i];
      if !ownOnly || f.own {
        PaddedText(f.literal);
        found := NameMatches(f.kind, Padded(f.literal), record);
        assert found <==> Fits(f, name);
        if found { return; }
      }
    }
    found := false;
  }

  lemma TerminatedText(name: seq<Byte>)
    requires 0 !in name
    ensures Readable(name + [0]) && Text(name + [0]) == name
  {
    TextOfString(name, []);
    assert name + [0] + [] == name + [0];
  }

  /** A kernel or API record. */
  method EnqueuesKernel(filters: seq<Slot>, name: Option<seq<Byte>>) returns (kept: bool)
    requires forall f :: f in filters ==> |Encode(f.literal)| < NAME_LENGTH && 0 !in f.literal
    requires name.Some? ==> 0 !in name.value
    ensures kept <==> Enqueued(filters, BytesOf(name), CutName(BytesOf(name)))
  {
    hide Encode, Text, Accepts;
    TerminatedText(BytesOf(name));
    kept := AnyMatches(filters, false, if name.None? then None else Some(name.value + [0]));
    if kept {
      var record := new Byte[NAME_LENGTH];
      CopyName(record, name);
      BufferText(record[..], CutName(BytesOf(name)));
      kept := AnyMatches(filters, true, Some(record[..]));
    }
  }

  /** An NVTX range record; a range without a message never gets here. */
  method EnqueuesRange(filters: seq<Slot>, name: seq<Byte>) returns (kept: bool)
    requires forall f :: f in filters ==> |Encode(f.literal)| < NAME_LENGTH && 0 !in f.literal
    requires 0 !in name
    ensures kept <==> Enqueued(filters, name, name[..StoredLength(name)])
  {
    hide Encode, Text, Accepts;
    TerminatedText(name);
    kept := AnyMatches(filters, false, Some(name + [0]));
    if kept {
      var record := new Byte[NAME_LENGTH];
      var complete := CopyNvtxName(record, Some(name));
      BufferText(record[..], name[..StoredLength(name)]);
      kept := AnyMatches(filters, true, Some(record[..]));
    }
  }

  // What they keep

  /** Of an encoded name, `n` bytes are stored: all of a short one, and of a long one no less than the
      characters that fit. */
  ghost predicate Stores(name: seq<Scalar>, n: nat) {
    && n <= |Encode(name)| && n < NAME_LENGTH
    && (|Encode(name)| < NAME_LENGTH ==> n == |Encode(name)|)
    && forall p :: p <= name && |Encode(p)| < NAME_LENGTH ==> |Encode(p)| <= n
  }

  lemma KernelStores(name: seq<Scalar>)
    ensures var cut := CutName(Encode(name));
      Stores(name, |cut|) && cut == Encode(name)[..|cut|]
  {
    hide Encode;
    forall p | p <= name && |Encode(p)| < NAME_LENGTH ensures |Encode(p)| <= |CutName(Encode(name))| {
      EncodePrefix(name, p);
    }
  }

  lemma RangeStores(name: seq<Scalar>)
    ensures Stores(name, StoredLength(Encode(name)))
  {
    hide Encode, EncodeChar, StoredLength;
    var m := FitCount(name, NAME_LENGTH - 1);
    StoresLongestPrefix(name);
    FitIsLongest(name, NAME_LENGTH - 1);
    assert m == |name| ==> name[..m] == name;
    forall p | p <= name && |Encode(p)| < NAME_LENGTH ensures |Encode(p)| <= |Encode(name[..m])| {
      if |p| <= m {
        EncodePrefix(name[..m], p);
      } else {
        EncodePrefix(p, name[..m + 1]);
      }
    }
  }

  /** The literal stands in the name right before byte `n`. */
  ghost predicate OccursUpTo(literal: seq<Scalar>, name: seq<Scalar>, n: nat) {
    exists k: nat :: OccursAt(literal, name, k) && |Encode(name[..k])| + |Encode(literal)| == n
  }

  lemma StoredEnd(literal: seq<Scalar>, name: seq<Scalar>, n: nat)
    requires literal != [] && n <= |Encode(name)|
    ensures EndsIn(Encode(literal), Encode(name)[..n]) <==> OccursUpTo(literal, name, n)
  {
    hide Encode;
    var f, s := Encode(literal), Encode(name);
    if EndsIn(f, s[..n]) {
      assert s[n - |f|..n] == s[..n][n - |f|..];
      var k := EncodeOccurs(name, literal, n - |f|);
      assert OccursAt(literal, name, k);
    }
    if k: nat :| OccursAt(literal, name, k) && |Encode(name[..k])| + |f| == n {
      EncodeAt(name, k, literal);
      assert s[n - |f|..n] == s[..n][n - |f|..];
    }
  }

  lemma StoredWhole(literal: seq<Scalar>, name: seq<Scalar>, n: nat)
    requires n <= |Encode(name)|
    ensures Encode(literal) == Encode(name)[..n] <==> literal <= name && |Encode(literal)| == n
  {
    hide Encode;
    EncodePrefix(name, literal);
  }

  /** What becomes of an activity under one own filter, when the filters of its two records admitted it or not. */
  ghost predicate Kept(f: Slot, admitted: bool, name: seq<Byte>, stored: seq<Byte>) {
    (Fits(f, name) || admitted) && Fits(f, stored)
  }

  /** Where filter and meaning agree.  A long name that only another filter admitted is judged by its stored part. */
  ghost predicate Judged(f: Slot, admitted: bool, name: seq<Scalar>, n: nat) {
    match f.kind
    case Any => true
    case Prefix => true
    case Exact => |Encode(name)| < NAME_LENGTH || !admitted || !(f.literal <= name && |Encode(f.literal)| == n)
    case Suffix =>
      |Encode(name)| < NAME_LENGTH || (EndsIn(f.literal, name) <==> admitted && OccursUpTo(f.literal, name, n))
    case Contains => !Occurs(f.literal, name) || OccursBy(f.literal, name, n)
  }

  lemma ShortContains(f: seq<Byte>, s: seq<Byte>)
    requires |f| < NAME_LENGTH && |s| < NAME_LENGTH
    ensures Accepts(Contains, f, s) <==> Occurs(f, s)
  {
    assert s[..Min(|s|, NAME_LENGTH)] == s;
  }

  lemma FitsContains(f: Slot, name: seq<Scalar>)
    requires Lowered(f) && f.kind == Contains
    ensures Fits(f, Encode(name)) <==> OccursBy(f.literal, name, NAME_LENGTH)
  {
    hide Encode, OccursBy, Occurs;
    VisibleOccurs(f.literal, name, NAME_LENGTH);
  }

  lemma StoredContains(f: Slot, name: seq<Scalar>, n: nat)
    requires Lowered(f) && f.kind == Contains && n <= |Encode(name)| && n < NAME_LENGTH
    ensures Fits(f, Encode(name)[..n]) <==> OccursBy(f.literal, name, n)
  {
    hide Encode, OccursBy, Occurs;
    assert Min(|Encode(name)|, n) == n;
    VisibleOccurs(f.literal, name, n);
    ShortContains(Encode(f.literal), Encode(name)[..n]);
  }

  lemma KeptContains(f: Slot, admitted: bool, name: seq<Scalar>, n: nat)
    requires Lowered(f) && f.kind == Contains && n <= |Encode(name)| && n < NAME_LENGTH
    ensures Kept(f, admitted, Encode(name), Encode(name)[..n]) <==> OccursBy(f.literal, name, n)
  {
    hide Encode, Fits;
    FitsContains(f, name);
    StoredContains(f, name, n);
    if k: nat :| OccursAt(f.literal, name, k) && |Encode(name[..k])| + |Encode(f.literal)| <= n {
      assert OccursBy(f.literal, name, NAME_LENGTH);
    }
  }

  /** The record is kept exactly when the filter means its name, if and only if the name is well judged. */
  lemma KeptIff(f: Slot, admitted: bool, name: seq<Scalar>, n: nat)
    requires Lowered(f) && Stores(name, n)
    ensures (Kept(f, admitted, Encode(name), Encode(name)[..n]) <==> Denotes(f.kind, f.literal, name))
            <==> Judged(f, admitted, name, n)
  {
    hide Encode, Stores;
    var s := Encode(name);
    assert n <= |s| && n < NAME_LENGTH && (|s| < NAME_LENGTH ==> s[..n] == s) by { StoredShort(name, n); }
    match f.kind
    case Any =>
    case Exact =>
      EncodeInjective(f.literal, name);
      StoredWhole(f.literal, name, n);
    case Prefix =>
      StoredPrefix(f.literal, name, n);
    case Suffix =>
      if |s| < NAME_LENGTH {
        AgentAgrees(Suffix, f.literal, name);
      } else {
        StoredEnd(f.literal, name, n);
      }
    case Contains =>
      KeptContains(f, admitted, name, n);
  }

  lemma StoredShort(name: seq<Scalar>, n: nat)
    requires Stores(name, n)
    ensures n <= |Encode(name)| && n < NAME_LENGTH
    ensures |Encode(name)| < NAME_LENGTH ==> Encode(name)[..n] == Encode(name)
  {
  }

  /** A prefix that fits the buffer is a prefix of what is stored. */
  lemma StoredPrefix(literal: seq<Scalar>, name: seq<Scalar>, n: nat)
    requires Stores(name, n) && |Encode(literal)| < NAME_LENGTH
    ensures n <= |Encode(name)|
    ensures literal <= name <==> Encode(literal) <= Encode(name)
    ensures literal <= name <==> Encode(literal) <= Encode(name)[..n]
  {
    hide Encode;
    EncodePrefix(name, literal);
    assert Encode(literal) <= Encode(name)[..n] ==> Encode(literal) <= Encode(name);
  }

  /** The two passes keep what some own filter keeps, given what the first pass admitted. */
  lemma EnqueuedKept(filters: seq<Slot>, name: seq<Byte>, stored: seq<Byte>)
    ensures Enqueued(filters, name, stored)
            <==> exists f :: f in filters && f.own && Kept(f, Admitted(filters, name), name, stored)
  {
    hide Fits;
    if Enqueued(filters, name, stored) {
      var f :| f in filters && f.own && Fits(f, stored);
      assert Kept(f, Admitted(filters, name), name, stored);
    }
    if f :| f in filters && f.own && Kept(f, Admitted(filters, name), name, stored) {
      assert StoredFits(filters, stored);
      assert Admitted(filters, name);
    }
  }

  /** Some filter of this record means the name. */
  ghost predicate Meant(filters: seq<Slot>, name: seq<Scalar>) {
    exists f :: f in filters && f.own && Denotes(f.kind, f.literal, name)
  }

  /** A meant name is kept by some own filter, rightly or not; any other is rightly refused by all of them. */
  ghost predicate WellJudged(filters: seq<Slot>, name: seq<Scalar>, n: nat) {
    var admitted := Admitted(filters, Encode(name));
    if Meant(filters, name)
    then exists f :: f in filters && f.own && (Denotes(f.kind, f.literal, name) <==> Judged(f, admitted, name, n))
    else forall f :: f in filters && f.own ==> Judged(f, admitted, name, n)
  }

  /** The record is enqueued exactly when a filter means its name, if and only if the name is well judged. */
  lemma EnqueuedIff(filters: seq<Slot>, name: seq<Scalar>, n: nat)
    requires Stores(name, n) && forall f :: f in filters && f.own ==> Lowered(f)
    ensures (Enqueued(filters, Encode(name), Encode(name)[..n]) <==> Meant(filters, name))
            <==> WellJudged(filters, name, n)
  {
    hide Encode, Kept, Denotes, Judged, Admitted, Enqueued, Fits, Lowered, Stores;
    StoredShort(name, n);
    var s, admitted := Encode(name), Admitted(filters, Encode(name));
    EnqueuedKept(filters, s, s[..n]);
    forall f | f in filters && f.own
      ensures (Kept(f, admitted, s, s[..n]) <==> Denotes(f.kind, f.literal, name)) <==> Judged(f, admitted, name, n)
    {
      KeptIff(f, admitted, name, n);
    }
  }

  lemma OneOwn(filters: seq<Slot>, f: Slot, name: seq<Scalar>, n: nat)
    requires f in filters && f.own && forall g :: g in filters && g.own ==> g == f
    ensures Meant(filters, name) <==> Denotes(f.kind, f.literal, name)
    ensures WellJudged(filters, name, n) <==> Judged(f, Admitted(filters, Encode(name)), name, n)
  {
    hide Encode, Denotes, Judged, Admitted;
  }

  /** A name shorter than the buffer is enqueued if and only if some own filter means it, whatever the filters. */
  lemma ShortNamesJudged(filters: seq<Slot>, name: seq<Scalar>)
    requires |Encode(name)| < NAME_LENGTH && forall f :: f in filters ==> Lowered(f)
    ensures Enqueued(filters, Encode(name), Encode(name)) <==> Meant(filters, name)
  {
    hide Encode, Denotes, Lowered, Fits;
    forall f | f in filters ensures Fits(f, Encode(name)) <==> Denotes(f.kind, f.literal, name) {
      FitsShort(f, name);
    }
  }

  lemma FitsShort(f: Slot, name: seq<Scalar>)
    requires Lowered(f) && |Encode(name)| < NAME_LENGTH
    ensures Fits(f, Encode(name)) <==> Denotes(f.kind, f.literal, name)
  {
    hide Encode;
    if f.kind != Any { AgentAgrees(f.kind, f.literal, name); }
  }

  // Under a lowered pattern

  /** The filter that a pattern is lowered to. */
  function Own(pattern: seq<Scalar>): (f: Slot)
    requires Lower(pattern).Named?
  {
    Slot(true, Lower(pattern).kind, Lower(pattern).literal)
  }

  lemma OwnLowered(pattern: seq<Scalar>)
    requires Lower(pattern).Named?
    ensures Lowered(Own(pattern))
  {
    hide Encode, Literal;
    var c := LowerTried(CANDIDATES, pattern);
  }

  lemma StoredLoweredIff(pattern: seq<Scalar>, filters: seq<Slot>, name: seq<Scalar>, n: nat)
    requires Tokenize(pattern).Some? && Lower(pattern).Named? && Own(pattern) in filters && Stores(name, n)
    requires forall g :: g in filters && g.own ==> g == Own(pattern)
    ensures (Enqueued(filters, Encode(name), Encode(name)[..n]) <==> Searches(Tokenize(pattern).value, name))
            <==> Judged(Own(pattern), Admitted(filters, Encode(name)), name, n)
  {
    hide Encode, Tokenize, Searches, Denotes, Stores, Judged, Admitted, Enqueued, Meant, WellJudged, Lower, Lowered;
    StoredShort(name, n);
    OwnLowered(pattern);
    EnqueuedIff(filters, name, n);
    OneOwn(filters, Own(pattern), name, n);
    LowerMeaning(pattern, name);
  }

  /** For every kernel or API name: its record is enqueued exactly when the pattern matches, if and only if the
      name is well judged on its first 127 bytes. */
  lemma KernelLoweredIff(pattern: seq<Scalar>, filters: seq<Slot>, name: seq<Scalar>)
    requires Tokenize(pattern).Some? && Lower(pattern).Named? && Own(pattern) in filters
    requires forall g :: g in filters && g.own ==> g == Own(pattern)
    ensures (Enqueued(filters, Encode(name), CutName(Encode(name))) <==> Searches(Tokenize(pattern).value, name))
            <==> Judged(Own(pattern), Admitted(filters, Encode(name)), name, |CutName(Encode(name))|)
  {
    hide Encode, Tokenize, Searches, Stores, Judged, Admitted, Enqueued, CutName, Lower, Lowered;
    KernelStores(name);
    StoredLoweredIff(pattern, filters, name, |CutName(Encode(name))|);
  }

  /** For every range name: the same with the characters that fit in 127 bytes. */
  lemma RangeLoweredIff(pattern: seq<Scalar>, filters: seq<Slot>, name: seq<Scalar>)
    requires Tokenize(pattern).Some? && Lower(pattern).Named? && Own(pattern) in filters
    requires forall g :: g in filters && g.own ==> g == Own(pattern)
    ensures var n := StoredLength(Encode(name));
      (Enqueued(filters, Encode(name), Encode(name)[..n]) <==> Searches(Tokenize(pattern).value, name))
      <==> Judged(Own(pattern), Admitted(filters, Encode(name)), name, n)
  {
    hide Encode, Tokenize, Searches, Stores, Judged, Admitted, Enqueued, StoredLength, Lower, Lowered;
    RangeStores(name);
    StoredLoweredIff(pattern, filters, name, StoredLength(Encode(name)));
  }

  /** A name of 128 letters contains the literal in its last byte: accepted in full, it is refused as stored.
      The same name is kept by an exact filter for its first 127 letters if another filter admits it. */
  lemma StoredNamesMisjudged()
    ensures var name := Encode(Long(127));
      && Denotes(Contains, [98], Long(127)) && Accepts(Contains, Encode([98]), name)
      && !Accepts(Contains, Encode([98]), CutName(name))
    ensures var f := Slot(true, Exact, Long(127)[..127]);
      && !Denotes(Exact, f.literal, Long(127))
      && Enqueued([f, Slot(false, Any, [])], Encode(Long(127)), CutName(Encode(Long(127))))
  {
    hide Encode, Long;
    LongBytes(127);
    LongEnds(127);
    KernelStores(Long(127));
    AgentAgreesIff(Contains, [98], Long(127));
    var filters := [Slot(true, Exact, Long(127)[..127]), Slot(false, Any, [])];
    assert Fits(filters[1], Encode(Long(127)));
    EnqueuedIff(filters, Long(127), 127);
    OneOwn(filters, filters[0], Long(127), 127);
    KeptContains(Slot(true, Contains, [98]), true, Long(127), 127);
  }
}
