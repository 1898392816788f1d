/** The layer tar preflight of `oci.rs`: member boundaries, member names, PAX records and the
    end-of-archive records. The tar parser is outside the model: it hands over raw members. */
module TarLayer {
  import opened Wrappers

  type Byte = b: nat | b < 256
  type Bytes = seq<Byte>

  const U64_MAX: nat := 0xFFFF_FFFF_FFFF_FFFF
  type u64 = n: nat | n <= U64_MAX

  const BLOCK: nat := 512
  const TERMINATOR: nat := 1024
  const BUFFER: nat := 0x1_0000
  const METADATA_MAX: nat := 0x10_0000

  datatype TarError =
    | NotBlocks | SizeOverflow | EndOverflow | BeyondArchive
    | MissingTerminator | Unreadable | EndedEarly | NonZeroData
    | MetadataTooLarge | RepeatedPaxKey | UnsupportedPaxAttribute | UnsupportedEntryType
    | UnsafePath | UnsafeHardlinkTarget

  // ----- Member boundaries

  /** Rounded up to whole blocks. */
  function Padded(size: nat): nat {
    (size + 511) / 512 * 512
  }

  lemma PaddedIsLeast(size: nat)
    ensures Padded(size) % 512 == 0 && size <= Padded(size) < size + 512
    ensures forall n: nat :: n % 512 == 0 && size <= n ==> Padded(size) <= n
  {
  }

  function CheckedAdd(a: u64, b: u64): Option<u64> {
    if a + b <= U64_MAX then Some(a + b) else None
  }

  /** For every position and size on 64 bits the end is found exactly when the padded member
      lies within the file: the overflow checks refuse nothing that would fit. */
  method TarEntryEnd(position: u64, size: u64, fileLen: u64) returns (r: Result<u64, TarError>)
    ensures r.Ok? <==> position + Padded(size) <= fileLen
    ensures r.Ok? ==> r.value == position + Padded(size)
    ensures r.Err? ==>
              r.error == if size + 511 > U64_MAX then SizeOverflow
                         else if position + Padded(size) > U64_MAX then EndOverflow else BeyondArchive
  {
    PaddedIsLeast(size);
    var sum := CheckedAdd(size, 511);
    if sum.None? { return Err(SizeOverflow); }
    var padded := sum.value / 512 * 512;
    var end := CheckedAdd(position, padded);
    if end.None? { return Err(EndOverflow); }
    if end.value > fileLen { return Err(BeyondArchive); }
    return Ok(end.value);
  }

  // ----- End of archive

  /** At least two zero records, and nothing else, follow the last member. `file` is what the
      reads find, which may be shorter than the length asked for earlier. */
  predicate Terminated(file: Bytes, lastEnd: nat, fileLen: nat) {
    && lastEnd + TERMINATOR <= fileLen <= |file|
    && forall i :: lastEnd <= i < fileLen ==> file[i] == 0
  }

  /** How many bytes a read of up to `limit` returns when `available` are left and the system
      offers `offered`: none only at the end of the file. */
  function ReadCount(available: nat, limit: nat, offered: nat): (n: nat)
    requires limit > 0
    ensures n <= available && n <= limit
    ensures n == 0 <==> available == 0
  {
    var most := if available < limit then available else limit;
    if offered == 0 then (if most == 0 then 0 else 1) else if offered < most then offered else most
  }

  /** Terminates for every pattern of short reads; accepts only a terminated file, and every
      terminated file unless a read fails. `reads(k)` is the k-th read: an error, or an offer. */
  method ValidateTarTerminator(file: Bytes, lastEnd: u64, fileLen: u64, seekable: bool, answers: nat -> Option<nat>)
    returns (r: Result<(), TarError>)
    ensures r.Ok? ==> Terminated(file, lastEnd, fileLen)
    ensures seekable && (forall k: nat :: answers(k).Some?) ==> (r.Ok? <==> Terminated(file, lastEnd, fileLen))
    ensures r == Err(BeyondArchive) <==> fileLen < lastEnd
    ensures r == Err(MissingTerminator) <==> lastEnd <= fileLen < lastEnd + TERMINATOR
    ensures r == Err(NonZeroData) ==> exists i :: lastEnd <= i < fileLen && i < |file| && file[i] != 0
    ensures r == Err(EndedEarly) ==> |file| < fileLen
  {
    if fileLen < lastEnd { return Err(BeyondArchive); }
    var trailing := fileLen - lastEnd;
    if trailing < TERMINATOR { return Err(MissingTerminator); }
    if !seekable { return Err(Unreadable); }
    var remaining, position, k := trailing, lastEnd, 0;
    while remaining > 0
      invariant position + remaining == fileLen
      invariant lastEnd <= position && (position > lastEnd ==> position <= |file|)
      invariant forall i :: lastEnd <= i < position ==> file[i] == 0
    {
      var chunkLen := if remaining < BUFFER then remaining else BUFFER;
      if answers(k).None? { return Err(Unreadable); }
      var available := if position < |file| then |file| - position else 0;
      var read := ReadCount(available, chunkLen, answers(k).value);
      if read == 0 { return Err(EndedEarly); }
      var buffer := file[position..position + read];
      if exists i :: 0 <= i < |buffer| && buffer[i] != 0 {
        ghost var i :| 0 <= i < |buffer| && buffer[i] != 0;
        assert file[position + i] != 0;
        return Err(NonZeroData);
      }
      assert forall i :: position <= i < position + read ==> file[i] == buffer[i - position];
      remaining, position, k := remaining - read, position + read, k + 1;
    }
    return Ok(());
  }

  // ----- Member names

  const SLASH: Byte := 47
  const DOT: Byte := 46

  function Split(path: Bytes): (r: seq<Bytes>)
    ensures r != []
    ensures forall c :: c in r ==> SLASH !in c
  {
    if path == [] then [[]]
    else
      var rest := Split(path[1..]);
      if path[0] == SLASH then [[]] + rest else [[path[0]] + rest[0]] + rest[1..]
  }

  /** The components again, with a slash between each two. */
  function Join(components: seq<Bytes>): Bytes
    requires components != []
  {
    if |components| == 1 then components[0] else components[0] + [SLASH] + Join(components[1..])
  }

  lemma {:induction false} SplitJoins(path: Bytes)
    ensures Join(Split(path)) == path
  {
    if path != [] {
      var rest := Split(path[1..]);
      SplitJoins(path[1..]);
      if path[0] == SLASH {
        assert Split(path)[1..] == rest;
      } else {
        assert Split(path)[1..] == rest[1..];
      }
    }
  }

  predicate Skipped(component: Bytes) {
    component == [] || component == [DOT]
  }

  predicate IsName(component: Bytes) {
    !Skipped(component) && component != [DOT, DOT]
  }

  /** Not empty, not absolute, no NUL byte. */
  predicate Relative(path: Bytes) {
    path != [] && path[0] != SLASH && 0 !in path
  }

  predicate IsSafeMember(path: Bytes) {
    && Relative(path)
    && [DOT, DOT] !in Split(path)
    && exists k :: 0 <= k < |Split(path)| && IsName(Split(path)[k])
  }

  method IsSafeLayerMemberBytes(path: Bytes) returns (safe: bool)
    ensures safe <==> IsSafeMember(path)
  {
    if path == [] || path[0] == SLASH || 0 in path { return false; }
    var hasName := false;
    var components := Split(path);
    for n := 0 to |components|
      invariant [DOT, DOT] !in components[..n]
      invariant hasName <==> exists k :: 0 <= k < n && IsName(components[k])
    {
      var component := components[n];
      if component == [DOT, DOT] { return false; }
      if !Skipped(component) { hasName := true; }
      assert components[..n + 1] == components[..n] + [component];
    }
    assert components[..|components|] == components;
    return hasName;
  }

  predicate IsLayerRoot(path: Bytes) {
    Relative(path) && forall c :: c in Split(path) ==> Skipped(c)
  }

  /** Walking the components from a directory, as a kernel would with no links in the way;
      nothing when the walk climbs out of the root. */
  function Resolve(at: seq<Bytes>, components: seq<Bytes>): Option<seq<Bytes>>
    decreases |components|
  {
    if components == [] then Some(at)
    else if Skipped(components[0]) then Resolve(at, components[1..])
    else if components[0] != [DOT, DOT] then Resolve(at + [components[0]], components[1..])
    else if at == [] then None
    else Resolve(at[..|at| - 1], components[1..])
  }

  function Names(components: seq<Bytes>): seq<Bytes> {
    if components == [] then []
    else (if IsName(components[0]) then [components[0]] else []) + Names(components[1..])
  }

  lemma {:induction false} ResolvesBelow(at: seq<Bytes>, components: seq<Bytes>)
    requires [DOT, DOT] !in components
    ensures Resolve(at, components) == Some(at + Names(components))
    decreases |components|
  {
    if components == [] {
      assert at + Names(components) == at;
    } else if Skipped(components[0]) {
      ResolvesBelow(at, components[1..]);
      assert Names(components) == Names(components[1..]);
    } else {
      ResolvesBelow(at + [components[0]], components[1..]);
      assert at + [components[0]] + Names(components[1..]) == at + Names(components);
    }
  }

  lemma {:induction false} SomeName(components: seq<Bytes>)
    ensures Names(components) != [] <==> exists k :: 0 <= k < |components| && IsName(components[k])
  {
    if components != [] {
      SomeName(components[1..]);
      if k :| 0 <= k < |components[1..]| && IsName(components[1..][k]) {
        assert IsName(components[k + 1]);
      }
      if k :| 0 <= k < |components| && IsName(components[k]) {
        assert k == 0 || IsName(components[1..][k - 1]);
      }
    }
  }

  /** Among relative paths without `..`, which from any directory never leave it, the accepted
      members are exactly those that end strictly below it, and the roots those that stay. */
  lemma SafeMembersExactly(path: Bytes, at: seq<Bytes>)
    requires Relative(path) && [DOT, DOT] !in Split(path)
    ensures Resolve(at, Split(path)).Some? && at <= Resolve(at, Split(path)).value
    ensures IsSafeMember(path) <==> at < Resolve(at, Split(path)).value
    ensures IsLayerRoot(path) <==> Resolve(at, Split(path)).value == at
  {
    var components := Split(path);
    ResolvesBelow(at, components);
    SomeName(components);
    if !IsLayerRoot(path) {
      var c :| c in components && !Skipped(c);
      var k :| 0 <= k < |components| && components[k] == c;
      assert IsName(components[k]);
    }
  }

  // ----- PAX records

  datatype PaxRecord = PaxRecord(key: string, value: Bytes)

  const SPARSE_PREFIX := "GNU.sparse."

  predicate SecurityKey(key: string) {
    key == "path" || key == "linkpath" || key == "size"
  }

  /** What one record may be, given the security-sensitive keys before it. */
  function PaxProblem(record: PaxRecord, global: bool, seen: set<string>): Option<TarError> {
    if SPARSE_PREFIX <= record.key then Some(UnsupportedPaxAttribute)
    else if SecurityKey(record.key) && record.key in seen then Some(RepeatedPaxKey)
    else if record.key == "path" then
      if global then Some(UnsupportedPaxAttribute)
      else if !IsSafeMember(record.value) && !IsLayerRoot(record.value) then Some(UnsafePath)
      else None
    else if record.key == "linkpath" then
      if global then Some(UnsupportedPaxAttribute) else None
    else if record.key == "size" then Some(UnsupportedPaxAttribute)
    else None
  }

  /** Records that can neither move a member nor change where its payload ends. */
  ghost predicate HarmlessPax(records: seq<PaxRecord>, global: bool) {
    && (forall k :: 0 <= k < |records| ==> records[k].key != "size" && !(SPARSE_PREFIX <= records[k].key))
    && (forall k :: 0 <= k < |records| && records[k].key == "path" ==>
          !global && (IsSafeMember(records[k].value) || IsLayerRoot(records[k].value)))
    && (forall k :: 0 <= k < |records| && records[k].key == "linkpath" ==> !global)
    && (forall j, k :: 0 <= j < k < |records| && SecurityKey(records[j].key) ==> records[j].key != records[k].key)
  }

  /** The security-sensitive keys among the first `n` records. */
  ghost predicate KeysSeen(records: seq<PaxRecord>, n: nat, seen: set<string>)
    requires n <= |records|
  {
    forall key :: key in seen <==> SecurityKey(key) && exists k :: 0 <= k < n && records[k].key == key
  }

  /** One more record: harmless so far exactly when it has no problem of its own. */
  lemma OneMoreRecord(records: seq<PaxRecord>, n: nat, global: bool, seen: set<string>)
    requires n < |records| && KeysSeen(records, n, seen)
    requires HarmlessPax(records[..n], global)
    ensures HarmlessPax(records[..n + 1], global) <==> PaxProblem(records[n], global, seen).None?
  {
    var upTo := records[..n + 1];
    assert forall k :: 0 <= k < n ==> upTo[k] == records[..n][k];
    if PaxProblem(records[n], global, seen) == Some(RepeatedPaxKey) {
      var k :| 0 <= k < n && records[k].key == records[n].key;
      assert upTo[k].key == upTo[n].key;
    }
    assert upTo[n] == records[n];
  }

  lemma HarmlessPrefix(records: seq<PaxRecord>, n: nat, global: bool)
    requires n <= |records| && HarmlessPax(records, global)
    ensures HarmlessPax(records[..n], global)
  {
  }

  method ValidatePaxMetadata(records: seq<PaxRecord>, global: bool) returns (r: Result<(), TarError>)
    ensures r.Ok? <==> HarmlessPax(records, global)
    ensures r.Err? ==> r.error in {UnsupportedPaxAttribute, RepeatedPaxKey, UnsafePath}
  {
    var seen: set<string> := {};
    for n := 0 to |records|
      invariant HarmlessPax(records[..n], global) && KeysSeen(records, n, seen)
    {
      var record := records[n];
      OneMoreRecord(records, n, global, seen);
      var problem := PaxProblem(record, global, seen);
      if problem.Some? {
        if HarmlessPax(records, global) { HarmlessPrefix(records, n + 1, global); }
        return Err(problem.value);
      }
      if SecurityKey(record.key) {
        seen := seen + {record.key};
      }
    }
    assert records[..|records|] == records;
    return Ok(());
  }

  // ----- The raw pass

  datatype EntryType =
    | Regular | Directory | Symlink | HardLink | CharacterDevice | BlockDevice | Fifo
    | GnuSparse | GnuLongName | GnuLongLink | PaxLocal | PaxGlobal | Other

  /** A raw member: where its data starts, its declared size and what the parser decodes. */
  datatype Member = Member(
    position: u64, size: u64, entryType: EntryType, path: Bytes, link: Option<Bytes>, pax: seq<PaxRecord>)

  predicate BuffersMetadata(t: EntryType) {
    t == GnuLongName || t == GnuLongLink || t == PaxLocal || t == PaxGlobal
  }

  predicate IsSkipped(t: EntryType) {
    t == CharacterDevice || t == BlockDevice || t == Fifo
  }

  predicate SafeEntryPath(path: Bytes, t: EntryType) {
    IsSafeMember(path) || (t == Directory && IsLayerRoot(path))
  }

  /** What the raw pass lets through. */
  ghost predicate Acceptable(m: Member, fileLen: nat) {
    && m.position + Padded(m.size) <= fileLen
    && m.entryType != GnuSparse && m.entryType != Other
    && (BuffersMetadata(m.entryType) ==> m.size <= METADATA_MAX)
    && (m.entryType == PaxLocal || m.entryType == PaxGlobal ==> HarmlessPax(m.pax, m.entryType == PaxGlobal))
    && (!BuffersMetadata(m.entryType) ==> SafeEntryPath(m.path, m.entryType))
    && (m.entryType == HardLink && m.link.Some? ==> IsSafeMember(m.link.value))
  }

  /** The path is relative, names no parent, and ends strictly below wherever it is resolved. */
  ghost predicate EndsBelow(path: Bytes, at: seq<Bytes>) {
    && Relative(path) && [DOT, DOT] !in Split(path)
    && Resolve(at, Split(path)).Some? && at < Resolve(at, Split(path)).value
  }

  ghost predicate EndsAt(path: Bytes, at: seq<Bytes>) {
    Relative(path) && [DOT, DOT] !in Split(path) && Resolve(at, Split(path)) == Some(at)
  }

  lemma EndsExactly(path: Bytes, at: seq<Bytes>)
    ensures IsSafeMember(path) <==> EndsBelow(path, at)
    ensures IsLayerRoot(path) <==> EndsAt(path, at)
  {
    if Relative(path) && [DOT, DOT] !in Split(path) {
      SafeMembersExactly(path, at);
    }
    assert !Skipped([DOT, DOT]);
  }

  /** Where members and hard links may lead, whatever directory a layer is unpacked into: a member,
      and what a hard link names, strictly below it; a directory member also to it. */
  lemma AcceptableExactly(m: Member, fileLen: nat, at: seq<Bytes>)
    ensures Acceptable(m, fileLen) <==>
            && m.position + Padded(m.size) <= fileLen
            && m.entryType !in {GnuSparse, Other}
            && if m.entryType in {GnuLongName, GnuLongLink, PaxLocal, PaxGlobal} then
                 && m.size <= METADATA_MAX
                 && (m.entryType in {PaxLocal, PaxGlobal} ==> HarmlessPax(m.pax, m.entryType == PaxGlobal))
               else
                 && (EndsBelow(m.path, at) || (m.entryType == Directory && EndsAt(m.path, at)))
                 && (m.entryType == HardLink && m.link.Some? ==> EndsBelow(m.link.value, at))
  {
    EndsExactly(m.path, at);
    if m.link.Some? {
      EndsExactly(m.link.value, at);
    }
  }

  /** What a reader that applies the records takes for the key: the last one counts. */
  function Override(records: seq<PaxRecord>, key: string): Option<Bytes> {
    if records == [] then None
    else
      var last := records[|records| - 1];
      if last.key == key then Some(last.value) else Override(records[..|records| - 1], key)
  }

  lemma {:induction false} OverrideIsLast(records: seq<PaxRecord>, key: string)
    ensures Override(records, key).None? <==> forall k :: 0 <= k < |records| ==> records[k].key != key
    ensures Override(records, key).Some? ==>
              exists k ::
                && 0 <= k < |records| && records[k].key == key && records[k].value == Override(records, key).value
                && forall j :: k < j < |records| ==> records[j].key != key
  {
    if records != [] {
      OverrideIsLast(records[..|records| - 1], key);
    }
  }

  ghost predicate NoneRepeats(records: seq<PaxRecord>) {
    forall j, k :: 0 <= j < k < |records| && records[j].key in {"path", "linkpath", "size"} ==>
      records[j].key != records[k].key
  }

  /** No reader that applies the records gets another size or a sparse layout, or from a global
      record another path or link; the path it gets from a local one stays in the directory the
      layer is unpacked into. */
  ghost predicate OverridesHarmless(records: seq<PaxRecord>, global: bool, at: seq<Bytes>) {
    && Override(records, "size") == None
    && (forall key :: "GNU.sparse." <= key ==> Override(records, key) == None)
    && (global ==> Override(records, "path") == None && Override(records, "linkpath") == None)
    && (Override(records, "path").Some? ==>
          var path := Override(records, "path").value;
          EndsBelow(path, at) || EndsAt(path, at))
  }

  /** Records without a repeated key are accepted exactly when they are harmless in that sense, and
      records with one never. */
  lemma HarmlessExactly(records: seq<PaxRecord>, global: bool, at: seq<Bytes>)
    ensures HarmlessPax(records, global) <==> NoneRepeats(records) && OverridesHarmless(records, global, at)
  {
    if HarmlessPax(records, global) {
      HarmlessOverrides(records, global, at);
    }
    if NoneRepeats(records) && OverridesHarmless(records, global, at) {
      OverridesDecide(records, global, at);
    }
  }

  lemma HarmlessOverrides(records: seq<PaxRecord>, global: bool, at: seq<Bytes>)
    requires HarmlessPax(records, global)
    ensures NoneRepeats(records) && OverridesHarmless(records, global, at)
  {
    forall key: string
      ensures Override(records, key).Some? ==>
                exists k :: 0 <= k < |records| && records[k] == PaxRecord(key, Override(records, key).value)
    {
      OverrideIsLast(records, key);
    }
    if Override(records, "path").Some? {
      EndsExactly(Override(records, "path").value, at);
    }
  }

  lemma OverridesDecide(records: seq<PaxRecord>, global: bool, at: seq<Bytes>)
    requires NoneRepeats(records) && OverridesHarmless(records, global, at)
    ensures HarmlessPax(records, global)
  {
    forall k | 0 <= k < |records|
      ensures records[k].key != "size" && !(SPARSE_PREFIX <= records[k].key)
      ensures records[k].key in {"path", "linkpath"} ==> !global
      ensures records[k].key == "path" ==> IsSafeMember(records[k].value) || IsLayerRoot(records[k].value)
    {
      OnlyOverride(records, k);
      EndsExactly(records[k].value, at);
    }
  }

  lemma OnlyOverride(records: seq<PaxRecord>, k: nat)
    requires NoneRepeats(records) && k < |records|
    ensures Override(records, records[k].key).Some?
    ensures records[k].key == "path" ==> Override(records, "path") == Some(records[k].value)
  {
    OverrideIsLast(records, records[k].key);
  }

  method CheckMember(m: Member, fileLen: u64) returns (r: Result<u64, TarError>)
    ensures r.Ok? <==> Acceptable(m, fileLen)
    ensures r.Ok? ==> r.value == m.position + Padded(m.size)
    ensures m.position + Padded(m.size) <= fileLen ==>
              && (r == Err(MetadataTooLarge) <==> BuffersMetadata(m.entryType) && m.size > METADATA_MAX)
              && (r == Err(UnsafeHardlinkTarget) <==>
                  m.entryType == HardLink && IsSafeMember(m.path) && m.link.Some? && !IsSafeMember(m.link.value))
              && (!BuffersMetadata(m.entryType) && m.entryType != GnuSparse && !SafeEntryPath(m.path, m.entryType) ==>
                    r == Err(UnsafePath))
  {
    r := TarEntryEnd(m.position, m.size, fileLen);
    if r.Err? { return; }
    if m.entryType == GnuSparse { return Err(UnsupportedEntryType); }
    if BuffersMetadata(m.entryType) && m.size > METADATA_MAX { return Err(MetadataTooLarge); }
    if m.entryType == PaxLocal || m.entryType == PaxGlobal {
      var checked := ValidatePaxMetadata(m.pax, m.entryType == PaxGlobal);
      if checked.Err? { return Err(checked.error); }
    }
    if BuffersMetadata(m.entryType) { return; }
    var safe := IsSafeLayerMemberBytes(m.path);
    if !safe && !(m.entryType == Directory && IsLayerRoot(m.path)) { return Err(UnsafePath); }
    if IsSkipped(m.entryType) { return; }
    if m.entryType == HardLink {
      if m.link.Some? {
        var safeLink := IsSafeLayerMemberBytes(m.link.value);
        if !safeLink { return Err(UnsafeHardlinkTarget); }
      }
    } else if m.entryType == Other {
      return Err(UnsupportedEntryType);
    }
  }

  function LastEnd(members: seq<Member>): nat {
    if members == [] then 0 else members[|members| - 1].position + Padded(members[|members| - 1].size)
  }

  method ValidateRawTarMetadata(members: seq<Member>, fileLen: u64) returns (r: Result<u64, TarError>)
    ensures r.Ok? <==> forall k :: 0 <= k < |members| ==> Acceptable(members[k], fileLen)
    ensures r.Ok? ==> r.value == LastEnd(members)
  {
    var lastEnd: u64 := 0;
    for n := 0 to |members|
      invariant forall k :: 0 <= k < n ==> Acceptable(members[k], fileLen)
      invariant lastEnd == LastEnd(members[..n])
    {
      var checked := CheckMember(members[n], fileLen);
      if checked.Err? { return Err(checked.error); }
      lastEnd := checked.value;
    }
    assert members[..|members|] == members;
    return Ok(lastEnd);
  }

  /** Whole blocks, every member acceptable, a proper end. */
  ghost predicate Sound(file: Bytes, fileLen: nat, members: seq<Member>) {
    && fileLen % 512 == 0
    && (forall k :: 0 <= k < |members| ==> Acceptable(members[k], fileLen))
    && Terminated(file, LastEnd(members), fileLen)
  }

  /** The preflight accepts only sound archives, and every sound one unless the disk fails. */
  method ValidateLayerArchive(
      file: Bytes, fileLen: u64, members: seq<Member>, seekable: bool, answers: nat -> Option<nat>)
    returns (r: Result<(), TarError>)
    ensures r.Ok? ==> Sound(file, fileLen, members)
    ensures seekable && (forall k: nat :: answers(k).Some?) ==> (r.Ok? <==> Sound(file, fileLen, members))
  {
    if fileLen % 512 != 0 { return Err(NotBlocks); }
    var walked := ValidateRawTarMetadata(members, fileLen);
    if walked.Err? { return Err(walked.error); }
    r := ValidateTarTerminator(file, walked.value, fileLen, seekable, answers);
  }

  /** Members as a raw parser finds them: each header right after the member before it. */
  predicate LaidOut(members: seq<Member>) {
    forall k :: 0 <= k < |members| ==> members[k].position == LastEnd(members[..k]) + BLOCK
  }

  /** An accepted archive is its members, block after block in order and without overlap: two
      payloads never share a byte, nor does a payload reach into a later member's header. */
  lemma {:induction false} AcceptedLayout(members: seq<Member>, fileLen: u64, i: nat, j: nat)
    requires LaidOut(members) && forall k :: 0 <= k < |members| ==> Acceptable(members[k], fileLen)
    requires i < j < |members|
    ensures members[i].position % 512 == 0 && members[j].position % 512 == 0
    ensures members[i].position + members[i].size <= LastEnd(members[..i + 1])
    ensures LastEnd(members[..i + 1]) + BLOCK <= members[j].position
    ensures members[j].position + members[j].size <= LastEnd(members) <= fileLen
    decreases |members|, j
  {
    PositionsAligned(members, i);
    PositionsAligned(members, j);
    MemberEnd(members, i);
    EndsGrow(members, i + 1, j);
    MemberEnd(members, j);
    EndsGrow(members, j + 1, |members|);
    MemberEnd(members, |members| - 1);
    assert members[..|members|] == members;
  }

  lemma MemberEnd(members: seq<Member>, k: nat)
    requires k < |members|
    ensures LastEnd(members[..k + 1]) == members[k].position + Padded(members[k].size)
    ensures members[k].position + members[k].size <= LastEnd(members[..k + 1])
  {
    PaddedIsLeast(members[k].size);
    assert members[..k + 1][k] == members[k];
  }

  lemma BlocksAddUp(position: nat, padded: nat)
    requires position % 512 == 0 && padded % 512 == 0
    ensures (position + padded + BLOCK) % 512 == 0
  {
  }

  lemma {:induction false} PositionsAligned(members: seq<Member>, k: nat)
    requires LaidOut(members) && k < |members|
    ensures members[k].position % 512 == 0
  {
    if k > 0 {
      PositionsAligned(members, k - 1);
      PaddedIsLeast(members[k - 1].size);
      assert members[..k][k - 1] == members[k - 1];
      BlocksAddUp(members[k - 1].position, Padded(members[k - 1].size));
    }
  }

  lemma {:induction false} EndsGrow(members: seq<Member>, a: nat, b: nat)
    requires LaidOut(members) && a <= b <= |members|
    ensures LastEnd(members[..a]) <= LastEnd(members[..b])
    decreases b
  {
    if a < b {
      EndsGrow(members, a, b - 1);
      assert members[..b][b - 1] == members[b - 1];
    }
  }
}
