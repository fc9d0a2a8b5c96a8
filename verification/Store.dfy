/** The durable lease file: its format, its two validators, and the crash-safe write protocol
    (internal/state/jsonstore.go). */
module Store {
  import opened Prelude
  import opened Names
  import opened Leases
  import Calendar

  const SCHEMA_VERSION := 1

  datatype Snapshot = Snapshot(version: int, leases: seq<Lease>)

  // ---------------------------------------------------------------- the file's shape

  /** An address as text: absent, readable, or not an address. */
  datatype AddrText = NoAddrText | AddrText(addr: Addr) | BadAddrText

  /** A time as text: absent, an RFC 3339 instant, or not a time. */
  datatype TimeText = NoTime | Stamp(seconds: int, nanos: nat) | BadTime

  datatype FileLease = FileLease(stackKey: string, vip: AddrText, created: TimeText, seen: TimeText,
                                 active: TimeText)

  datatype FileSnapshot = FileSnapshot(version: Option<int>, leases: Option<seq<FileLease>>)

  // Seconds from Go's zero time to the first instant of year 0 and of year 10000: the years that
  // RFC 3339 can write.
  const FIRST_SECOND := -31_622_400
  const LAST_SECOND := 315_537_897_600

  function Floor(t: Time): Time {
    t / SECOND * SECOND
  }

  predicate InRange(t: Time) {
    t == 0 || FIRST_SECOND <= t / SECOND < LAST_SECOND
  }

  function FormatTime(t: Time): TimeText {
    if t == 0 then NoTime
    else if InRange(t) then Stamp(t / SECOND, 0)
    else BadTime
  }

  function ParseOptionalTime(s: TimeText): Option<Time> {
    match s
    case NoTime => Some(0)
    case Stamp(sec, nanos) => Some(sec * SECOND + nanos)
    case BadTime => None
  }

  /** The times that can be written and read back: the zero time, and every time in a year of four
      digits. */
  lemma InRangeIff(t: Time)
    ensures InRange(t) <==> t == 0 || exists y | 0 <= y <= 9999 :: Calendar.InYear(t / 1_000_000_000, y)
  {
    Calendar.FourDigitYears(t / 1_000_000_000);
  }

  /** Writing a time and reading it back floors it to the second. */
  lemma TimeRoundTrip(t: Time)
    ensures ParseOptionalTime(FormatTime(t)) == if InRange(t) then Some(Floor(t)) else None
  {
  }

  lemma FloorTwice(t: Time)
    ensures Floor(Floor(t)) == Floor(t) && Floor(t) <= t < Floor(t) + SECOND
    ensures InRange(t) ==> InRange(Floor(t))
  {
    assert Floor(t) / SECOND == t / SECOND;
  }

  function AddrToText(a: Addr): AddrText {
    if a.NoAddr? then BadAddrText else AddrText(a)
  }

  function ToFileLease(l: Lease): FileLease {
    FileLease(l.key, AddrToText(l.vip), FormatTime(l.created), FormatTime(l.seen), FormatTime(l.active))
  }

  function ToFileLeases(ls: seq<Lease>): seq<FileLease> {
    seq(|ls|, i requires 0 <= i < |ls| => ToFileLease(ls[i]))
  }

  method ToFileSnapshot(snap: Snapshot) returns (raw: FileSnapshot)
    ensures raw == FileSnapshot(Some(snap.version), Some(ToFileLeases(snap.leases)))
  {
    var out: seq<FileLease> := [];
    for i := 0 to |snap.leases|
      invariant out == ToFileLeases(snap.leases)[..i]
    {
      out := out + [ToFileLease(snap.leases[i])];
    }
    assert out == ToFileLeases(snap.leases);
    raw := FileSnapshot(Some(snap.version), Some(out));
  }

  // ---------------------------------------------------------------- the file's bytes

  /** The JSON text, cut into the pieces that matter: what opens it, one piece per lease, what closes
      it, and the newline at its end. Anything else is `Junk`. */
  datatype Piece = Opening(version: Option<int>, hasLeases: bool) | Entry(lease: FileLease) | Closing | Newline | Junk

  type Bytes = seq<Piece>

  function Entries(ls: seq<FileLease>): Bytes {
    seq(|ls|, i requires 0 <= i < |ls| => Entry(ls[i]))
  }

  /** The document without the newline that Save appends. */
  function Document(raw: FileSnapshot): Bytes {
    [Opening(raw.version, raw.leases.Some?)] + (match raw.leases case None => [] case Some(ls) => Entries(ls)) + [Closing]
  }

  function Encode(raw: FileSnapshot): Bytes {
    Document(raw) + [Newline]
  }

  predicate WellFormedText(data: Bytes) {
    && |data| >= 2 && data[0].Opening? && data[|data| - 1].Closing?
    && (forall i | 1 <= i < |data| - 1 :: data[i].Entry?)
    && (data[0].hasLeases || |data| == 2)
  }

  /** White space after the document does not matter. */
  function CutNewline(data: Bytes): Bytes {
    if data != [] && data[|data| - 1].Newline? then CutNewline(data[..|data| - 1]) else data
  }

  function Decode(data: Bytes): Option<FileSnapshot> {
    var text := CutNewline(data);
    if !WellFormedText(text) then None
    else if !text[0].hasLeases then Some(FileSnapshot(text[0].version, None))
    else Some(FileSnapshot(text[0].version,
                           Some(seq(|text| - 2, i requires 0 <= i < |text| - 2 => text[i + 1].lease))))
  }

  lemma DecodeEncode(raw: FileSnapshot)
    ensures Decode(Encode(raw)) == Some(raw)
  {
    var data := Document(raw);
    assert Encode(raw)[..|data|] == data;
    assert CutNewline(data) == data;
    assert WellFormedText(data);
    if raw.leases.Some? {
      assert forall i | 1 <= i < |data| - 1 :: data[i] == Entry(raw.leases.value[i - 1]);
      assert seq(|data| - 2, i requires 0 <= i < |data| - 2 => data[i + 1].lease) == raw.leases.value;
    }
  }

  /** A torn write is never mistaken for another snapshot: without its last newline the document reads
      the same, and any shorter prefix is unreadable. */
  lemma TornIsUnreadable(raw: FileSnapshot, n: nat)
    requires n < |Encode(raw)|
    ensures Decode(Encode(raw)[..n]) == if n == |Encode(raw)| - 1 then Some(raw) else None
  {
    var data := Document(raw);
    if n == |data| {
      DecodeEncode(raw);
      assert Encode(raw)[..n] == data;
    } else {
      var torn := Encode(raw)[..n];
      assert torn == data[..n];
      if n > 0 { assert torn[n - 1] == data[n - 1] && !data[n - 1].Closing? && !data[n - 1].Newline?; }
    }
  }

  // ---------------------------------------------------------------- reading: validateAndConvert

  datatype Reason = EmptyFile | Syntax | VersionMissing | VersionZero | VersionUnknown
                  | EmptyKey(i: nat) | DuplicateKey(i: nat) | EmptyVIP(i: nat) | InvalidVIP(i: nat) | NotIPv4(i: nat)
                  | DuplicateVIP(i: nat) | InvalidTime(i: nat)

  datatype LoadError = IO | Corrupt(reason: Reason)

  predicate GoodTimes(fl: FileLease) {
    fl.created != BadTime && fl.seen != BadTime && fl.active != BadTime
  }

  /** A lease entry that can be read on its own. */
  predicate Readable(fl: FileLease) {
    fl.stackKey != "" && fl.vip.AddrText? && fl.vip.addr.V4? && GoodTimes(fl)
  }

  function Convert(fl: FileLease): Lease
    requires Readable(fl)
  {
    Lease(fl.stackKey, fl.vip.addr, ParseOptionalTime(fl.created).value, ParseOptionalTime(fl.seen).value,
          ParseOptionalTime(fl.active).value)
  }

  function ConvertAll(fls: seq<FileLease>): seq<Lease>
    requires forall fl <- fls :: Readable(fl)
  {
    seq(|fls|, i requires 0 <= i < |fls| => Convert(fls[i]))
  }

  /** What is wrong with entry i, given the entries before it; checks in the program's order. */
  function EntryFault(fls: seq<FileLease>, i: nat): Option<Reason>
    requires i < |fls|
  {
    var fl := fls[i];
    if fl.stackKey == "" then Some(EmptyKey(i))
    else if exists j | 0 <= j < i :: fls[j].stackKey == fl.stackKey then Some(DuplicateKey(i))
    else if fl.vip.NoAddrText? then Some(EmptyVIP(i))
    else if fl.vip.BadAddrText? then Some(InvalidVIP(i))
    else if !fl.vip.addr.V4? then Some(NotIPv4(i))
    else if exists j | 0 <= j < i :: fls[j].vip == fl.vip then Some(DuplicateVIP(i))
    else if !GoodTimes(fl) then Some(InvalidTime(i))
    else None
  }

  /** The first fault among the first n entries. */
  function FirstFault(fls: seq<FileLease>, n: nat): Option<Reason>
    requires n <= |fls|
  {
    if n == 0 then None
    else if FirstFault(fls, n - 1).Some? then FirstFault(fls, n - 1)
    else EntryFault(fls, n - 1)
  }

  ghost predicate GoodFile(fls: seq<FileLease>) {
    && (forall fl <- fls :: Readable(fl))
    && (forall i, j :: 0 <= i < j < |fls| ==> fls[i].stackKey != fls[j].stackKey && fls[i].vip != fls[j].vip)
  }

  /** No fault is reported exactly when every entry is readable and no key or address repeats. */
  lemma {:induction false} FaultFree(fls: seq<FileLease>, n: nat)
    requires n <= |fls|
    ensures FirstFault(fls, n) == None <==> GoodFile(fls[..n])
  {
    if n > 0 {
      FaultFree(fls, n - 1);
      assert fls[..n] == fls[..n - 1] + [fls[n - 1]];
      if GoodFile(fls[..n - 1]) { LastEntry(fls, n - 1); }
      if GoodFile(fls[..n]) { GoodPrefix(fls[..n], n - 1); }
    }
  }

  /** A fault names the first entry that spoils the file, and what is wrong with it. */
  lemma {:induction false} FaultSays(fls: seq<FileLease>, n: nat) returns (i: nat)
    requires n <= |fls| && FirstFault(fls, n).Some?
    ensures i < n && GoodFile(fls[..i]) && !GoodFile(fls[..i + 1]) && Says(FirstFault(fls, n).value, fls, i)
  {
    if FirstFault(fls, n - 1).Some? {
      i := FaultSays(fls, n - 1);
    } else {
      i := n - 1;
      FaultFree(fls, i);
      FaultFree(fls, n);
    }
  }

  /** The complaint is true of entry i. */
  ghost predicate Says(e: Reason, fls: seq<FileLease>, i: nat)
    requires i < |fls|
  {
    match e
    case EmptyKey(k) => k == i && fls[i].stackKey == ""
    case DuplicateKey(k) => k == i && fls[i].stackKey in KeysTo(fls, i)
    case EmptyVIP(k) => k == i && fls[i].vip.NoAddrText?
    case InvalidVIP(k) => k == i && fls[i].vip.BadAddrText?
    case NotIPv4(k) => k == i && fls[i].vip.AddrText? && !fls[i].vip.addr.V4?
    case DuplicateVIP(k) => k == i && fls[i].vip.AddrText? && fls[i].vip.addr in VIPsTo(fls, i)
    case InvalidTime(k) => k == i && BadTime in {fls[i].created, fls[i].seen, fls[i].active}
    case _ => false
  }

  lemma GoodPrefix(fls: seq<FileLease>, n: nat)
    requires GoodFile(fls) && n <= |fls|
    ensures GoodFile(fls[..n])
  {
  }

  lemma LastEntry(fls: seq<FileLease>, n: nat)
    requires n < |fls| && GoodFile(fls[..n])
    ensures EntryFault(fls, n) == None <==> GoodFile(fls[..n] + [fls[n]])
  {
    var all := fls[..n] + [fls[n]];
    assert all[n] == fls[n] && forall j | 0 <= j < n :: all[j] == fls[j];
    assert fls[n] in all;
    if EntryFault(fls, n) == None {
      forall i, j | 0 <= i < j < |all| ensures all[i].stackKey != all[j].stackKey && all[i].vip != all[j].vip {
        if j < n { assert fls[..n][i].stackKey != fls[..n][j].stackKey && fls[..n][i].vip != fls[..n][j].vip; }
      }
    }
  }

  function KeysTo(fls: seq<FileLease>, n: nat): set<string>
    requires n <= |fls|
  {
    set j | 0 <= j < n :: fls[j].stackKey
  }

  function VIPsTo(fls: seq<FileLease>, n: nat): set<Addr>
    requires n <= |fls|
  {
    set j | 0 <= j < n && fls[j].vip.AddrText? :: fls[j].vip.addr
  }

  lemma SeenMore(fls: seq<FileLease>, n: nat)
    requires n < |fls| && Readable(fls[n])
    ensures KeysTo(fls, n + 1) == KeysTo(fls, n) + {fls[n].stackKey}
    ensures VIPsTo(fls, n + 1) == VIPsTo(fls, n) + {fls[n].vip.addr}
  {
  }

  /** The loop's body: one entry, given the keys and addresses seen before it. */
  method ReadEntry(fls: seq<FileLease>, i: nat, seenKeys: set<string>, seenVIPs: set<Addr>)
    returns (r: Result<Lease, Reason>)
    requires i < |fls| && seenKeys == KeysTo(fls, i) && seenVIPs == VIPsTo(fls, i)
    ensures match EntryFault(fls, i)
            case Some(e) => r == Err(e)
            case None => Readable(fls[i]) && r == Ok(Convert(fls[i]))
  {
    var fl := fls[i];
    if fl.stackKey == "" { return Err(EmptyKey(i)); }
    if fl.stackKey in seenKeys { return Err(DuplicateKey(i)); }
    if fl.vip.NoAddrText? { return Err(EmptyVIP(i)); }
    if fl.vip.BadAddrText? { return Err(InvalidVIP(i)); }
    var addr := fl.vip.addr;
    if !addr.V4? { return Err(NotIPv4(i)); }
    if addr in seenVIPs { return Err(DuplicateVIP(i)); }
    var created, seen, active := ParseOptionalTime(fl.created), ParseOptionalTime(fl.seen), ParseOptionalTime(fl.active);
    if created.None? || seen.None? || active.None? { return Err(InvalidTime(i)); }
    return Ok(Lease(fl.stackKey, addr, created.value, seen.value, active.value));
  }

  /** validateAndConvert's leases loop, with its two sets of things seen. */
  method ConvertLeases(fls: seq<FileLease>) returns (r: Result<seq<Lease>, Reason>)
    ensures match FirstFault(fls, |fls|)
            case Some(e) => r == Err(e)
            case None => (forall fl <- fls :: Readable(fl)) && r == Ok(ConvertAll(fls))
  {
    var seenKeys: set<string>, seenVIPs: set<Addr> := {}, {};
    var leases: seq<Lease> := [];
    for i := 0 to |fls|
      invariant FirstFault(fls, i) == None
      invariant seenKeys == KeysTo(fls, i) && seenVIPs == VIPsTo(fls, i)
      invariant |leases| == i && forall j | 0 <= j < i :: Readable(fls[j]) && leases[j] == Convert(fls[j])
    {
      if FirstFault(fls, i + 1).Some? { FaultStays(fls, i + 1, |fls|); }
      var l := ReadEntry(fls, i, seenKeys, seenVIPs);
      if l.Err? { return Err(l.error); }
      SeenMore(fls, i);
      seenKeys, seenVIPs := seenKeys + {l.value.key}, seenVIPs + {l.value.vip};
      leases := leases + [l.value];
    }
    assert leases == ConvertAll(fls);
    return Ok(leases);
  }

  lemma {:induction false} FaultStays(fls: seq<FileLease>, n: nat, m: nat)
    requires n <= m <= |fls| && FirstFault(fls, n).Some?
    ensures FirstFault(fls, m) == FirstFault(fls, n)
  {
    if n < m { FaultStays(fls, n, m - 1); }
  }

  function VersionFault(version: Option<int>): Option<Reason> {
    match version
    case None => Some(VersionMissing)
    case Some(v) =>
      if v == 0 then Some(VersionZero) else if v != SCHEMA_VERSION then Some(VersionUnknown) else None
  }

  function LeasesOf(raw: FileSnapshot): seq<FileLease> {
    match raw.leases case None => [] case Some(ls) => ls
  }

  function ConvertSnapshot(raw: FileSnapshot): Result<Snapshot, LoadError> {
    var fls := LeasesOf(raw);
    if VersionFault(raw.version).Some? then Err(Corrupt(VersionFault(raw.version).value))
    else match FirstFault(fls, |fls|)
      case Some(e) => Err(Corrupt(e))
      case None =>
        FaultFree(fls, |fls|);
        assert fls[..|fls|] == fls;
        Ok(Snapshot(SCHEMA_VERSION, ConvertAll(fls)))
  }

  method ValidateAndConvert(raw: FileSnapshot) returns (r: Result<Snapshot, LoadError>)
    ensures r == ConvertSnapshot(raw)
  {
    if raw.version.None? { return Err(Corrupt(VersionMissing)); }
    if raw.version.value == 0 { return Err(Corrupt(VersionZero)); }
    if raw.version.value != SCHEMA_VERSION { return Err(Corrupt(VersionUnknown)); }
    var fls := if raw.leases.None? then [] else raw.leases.value;
    var ls := ConvertLeases(fls);
    if ls.Err? { return Err(Corrupt(ls.error)); }
    return Ok(Snapshot(SCHEMA_VERSION, ls.value));
  }

  // ---------------------------------------------------------------- writing: validateSnapshot

  datatype SaveError = BadVersion | EmptyStackKey | BadVIP | RepeatedKey | RepeatedVIP | StepFailed(step: Step)

  /** What Save demands of the leases. */
  ghost predicate WellFormed(ls: seq<Lease>) {
    Unique(ls) && forall l <- ls :: l.key != "" && l.vip.V4?
  }

  function LeaseFault(ls: seq<Lease>, i: nat): Option<SaveError>
    requires i < |ls|
  {
    if ls[i].key == "" then Some(EmptyStackKey)
    else if !ls[i].vip.V4? then Some(BadVIP)
    else if exists j | 0 <= j < i :: ls[j].key == ls[i].key then Some(RepeatedKey)
    else if exists j | 0 <= j < i :: ls[j].vip == ls[i].vip then Some(RepeatedVIP)
    else None
  }

  function SnapshotFault(ls: seq<Lease>, n: nat): Option<SaveError>
    requires n <= |ls|
  {
    if n == 0 then None
    else if SnapshotFault(ls, n - 1).Some? then SnapshotFault(ls, n - 1)
    else LeaseFault(ls, n - 1)
  }

  lemma {:induction false} SnapshotFaultFree(ls: seq<Lease>, n: nat)
    requires n <= |ls|
    ensures SnapshotFault(ls, n) == None <==> WellFormed(ls[..n])
  {
    if n > 0 {
      SnapshotFaultFree(ls, n - 1);
      assert ls[..n] == ls[..n - 1] + [ls[n - 1]];
      if WellFormed(ls[..n - 1]) { LastLease(ls, n - 1); }
      if WellFormed(ls[..n]) { WellFormedPrefix(ls[..n], n - 1); }
    }
  }

  lemma WellFormedPrefix(ls: seq<Lease>, n: nat)
    requires WellFormed(ls) && n <= |ls|
    ensures WellFormed(ls[..n])
  {
  }

  lemma LastLease(ls: seq<Lease>, n: nat)
    requires n < |ls| && WellFormed(ls[..n])
    ensures LeaseFault(ls, n) == None <==> WellFormed(ls[..n] + [ls[n]])
  {
    var all := ls[..n] + [ls[n]];
    assert all[n] == ls[n] && forall j | 0 <= j < n :: all[j] == ls[j];
    assert ls[n] in all;
    if LeaseFault(ls, n) == None {
      forall i, j | 0 <= i < j < |all| ensures all[i].key != all[j].key && all[i].vip != all[j].vip {
        if j < n { assert ls[..n][i].key != ls[..n][j].key && ls[..n][i].vip != ls[..n][j].vip; }
      }
    }
  }

  lemma {:induction false} SnapshotFaultStays(ls: seq<Lease>, n: nat, m: nat)
    requires n <= m <= |ls| && SnapshotFault(ls, n).Some?
    ensures SnapshotFault(ls, m) == SnapshotFault(ls, n)
  {
    if n < m { SnapshotFaultStays(ls, n, m - 1); }
  }

  method ValidateSnapshot(ls: seq<Lease>) returns (r: Option<SaveError>)
    ensures r == SnapshotFault(ls, |ls|)
    ensures r == None <==> WellFormed(ls)
  {
    SnapshotFaultFree(ls, |ls|);
    assert ls[..|ls|] == ls;
    var seenKeys: set<string>, seenVIPs: set<Addr> := {}, {};
    for i := 0 to |ls|
      invariant SnapshotFault(ls, i) == None
      invariant seenKeys == set j | 0 <= j < i :: ls[j].key
      invariant seenVIPs == set j | 0 <= j < i :: ls[j].vip
    {
      if SnapshotFault(ls, i + 1).Some? { SnapshotFaultStays(ls, i + 1, |ls|); }
      var l := ls[i];
      if l.key == "" { return Some(EmptyStackKey); }
      if !l.vip.V4? { return Some(BadVIP); }
      if l.key in seenKeys { return Some(RepeatedKey); }
      if l.vip in seenVIPs { return Some(RepeatedVIP); }
      seenKeys, seenVIPs := seenKeys + {l.key}, seenVIPs + {l.vip};
    }
    return None;
  }

  // ---------------------------------------------------------------- the file system

  /** A file: its contents, and whether they have been forced to disk. */
  datatype File = File(data: Bytes, synced: bool)

  /** state.json, state.json.tmp, and the versions of state.json replaced since the directory was last
      forced to disk. */
  datatype Fs = Fs(main: Option<File>, tmp: Option<File>, older: seq<Option<File>>)

  datatype Step = EnsureDir | OpenTmp | ChmodTmp | WriteTmp | SyncTmp | CloseTmp | RenameTmp | SyncDir

  /** What the operating system does to one Save: everything works (except perhaps the best-effort
      directory sync); one step reports an error; or the process dies on reaching a step. `written` is
      how much of the temp file a failing or interrupted write leaves, `removed` whether the cleanup of
      the temp file works. */
  datatype Outcome = Works(dirSynced: bool)
                   | Fails(step: Step, written: nat, removed: bool)
                   | Dies(at: Step, upTo: nat)

  datatype SaveResult = Saved | NotSaved(error: SaveError) | Died

  /** The place of a step in the protocol. */
  function Rank(s: Step): nat {
    match s
    case EnsureDir => 0
    case OpenTmp => 1
    case ChmodTmp => 2
    case WriteTmp => 3
    case SyncTmp => 4
    case CloseTmp => 5
    case RenameTmp => 6
    case SyncDir => 7
  }

  predicate StopsAt(o: Outcome, s: Step) {
    match o
    case Works(_) => false
    case Fails(f, _, _) => f == s
    case Dies(d, _) => d == s
  }

  function ResultOf(o: Outcome): SaveResult {
    match o
    case Works(_) => Saved
    case Fails(s, _, _) => NotSaved(StepFailed(s))
    case Dies(_, _) => Died
  }

  function Prefix(data: Bytes, n: nat): Bytes {
    if n <= |data| then data[..n] else data
  }

  /** The temp file when a step stops the protocol. */
  function TmpAt(fs: Fs, data: Bytes, o: Outcome, s: Step): Option<File> {
    if Rank(s) <= Rank(OpenTmp) then fs.tmp
    else if o.Fails? && o.removed then None
    else if s == ChmodTmp then Some(File([], false))
    else if s == WriteTmp then Some(File(Prefix(data, if o.Fails? then o.written else if o.Dies? then o.upTo else 0), false))
    else if s == SyncTmp then Some(File(data, false))
    else Some(File(data, true))
  }

  /** The file system after the protocol has run on `data` with outcome `o`. */
  function WriteOn(fs: Fs, data: Bytes, o: Outcome): Fs {
    var renamed := Fs(Some(File(data, true)), None, fs.older + [fs.main]);
    match o
    case Works(dirSynced) => if dirSynced then renamed.(older := []) else renamed
    case Fails(s, _, _) =>
      if s == SyncDir then renamed else fs.(tmp := TmpAt(fs, data, o, s))
    case Dies(s, _) =>
      if s == SyncDir then renamed else fs.(tmp := TmpAt(fs, data, o, s))
  }

  function Normalized(snap: Snapshot): Snapshot {
    if snap.version == 0 then snap.(version := SCHEMA_VERSION) else snap
  }

  function SaveFault(snap: Snapshot): Option<SaveError> {
    if Normalized(snap).version != SCHEMA_VERSION then Some(BadVersion)
    else SnapshotFault(snap.leases, |snap.leases|)
  }

  function SnapshotBytes(snap: Snapshot): Bytes {
    Encode(FileSnapshot(Some(SCHEMA_VERSION), Some(ToFileLeases(snap.leases))))
  }

  /** An outcome the operating system can produce: a failing directory sync is not an error. */
  predicate Possible(o: Outcome) {
    o.Fails? ==> o.step != SyncDir
  }

  datatype SaveRun = SaveRun(fs: Fs, result: SaveResult)

  function SaveOn(fs: Fs, snap: Snapshot, o: Outcome): SaveRun
    requires Possible(o)
  {
    if SaveFault(snap).Some? then SaveRun(fs, NotSaved(SaveFault(snap).value))
    else SaveRun(WriteOn(fs, SnapshotBytes(snap), o), ResultOf(o))
  }

  function LoadOn(fs: Fs, ioError: bool): Result<Snapshot, LoadError> {
    if ioError then Err(IO)
    else match fs.main
      case None => Ok(Snapshot(SCHEMA_VERSION, []))
      case Some(f) =>
        if f.data == [] then Err(Corrupt(EmptyFile))
        else match Decode(f.data)
          case None => Err(Corrupt(Syntax))
          case Some(raw) => ConvertSnapshot(raw)
  }

  /** A missing file is an empty snapshot; any other file is read exactly when it is a document of version
      1 whose entries are readable and repeat no key and no address, and then entry by entry. */
  lemma LoadOkIff(fs: Fs, ioError: bool)
    ensures LoadOn(fs, ioError).Ok? <==> !ioError && (fs.main.None? || GoodDocument(fs.main.value.data))
    ensures !ioError && fs.main.None? ==> LoadOn(fs, ioError) == Ok(Snapshot(1, []))
    ensures !ioError && fs.main.Some? && GoodDocument(fs.main.value.data) ==>
              ReadFrom(LeasesOf(Decode(fs.main.value.data).value), LoadOn(fs, ioError).value)
    ensures ioError ==> LoadOn(fs, ioError) == Err(IO)
    ensures !ioError && LoadOn(fs, ioError).Err? ==> LoadOn(fs, ioError).error.Corrupt?
  {
    if !ioError && fs.main.Some? && Decode(fs.main.value.data).Some? { ConvertOkIff(Decode(fs.main.value.data).value); }
  }

  lemma ConvertOkIff(raw: FileSnapshot)
    ensures ConvertSnapshot(raw).Ok? <==> raw.version == Some(1) && GoodFile(LeasesOf(raw))
    ensures ConvertSnapshot(raw).Ok? ==> ReadFrom(LeasesOf(raw), ConvertSnapshot(raw).value)
    ensures ConvertSnapshot(raw).Err? ==> ConvertSnapshot(raw).error.Corrupt?
  {
    var fls := LeasesOf(raw);
    FaultFree(fls, |fls|);
    assert fls[..|fls|] == fls;
    if GoodFile(fls) { EntriesRead(fls); }
  }

  lemma EntriesRead(fls: seq<FileLease>)
    requires forall fl <- fls :: Readable(fl)
    ensures ReadFrom(fls, Snapshot(1, ConvertAll(fls)))
  {
    forall i | 0 <= i < |fls| ensures ReadAs(fls[i], ConvertAll(fls)[i]) {
      assert Readable(fls[i]);
    }
  }

  ghost predicate ReadFrom(fls: seq<FileLease>, snap: Snapshot) {
    snap.version == 1 && |snap.leases| == |fls| && forall i | 0 <= i < |fls| :: ReadAs(fls[i], snap.leases[i])
  }

  ghost predicate GoodDocument(data: Bytes) {
    data != [] && Decode(data).Some? && Decode(data).value.version == Some(1) && GoodFile(LeasesOf(Decode(data).value))
  }

  /** The lease carries the entry's key and address, and its times to the nanosecond; an absent time is
      the zero time. */
  ghost predicate ReadAs(fl: FileLease, l: Lease) {
    && l.key == fl.stackKey && AddrText(l.vip) == fl.vip
    && TimeIs(fl.created, l.created) && TimeIs(fl.seen, l.seen) && TimeIs(fl.active, l.active)
  }

  ghost predicate TimeIs(s: TimeText, t: Time) {
    match s
    case NoTime => t == 0
    case Stamp(seconds, nanos) => t == seconds * 1_000_000_000 + nanos
    case BadTime => false
  }

  /** Save's own checks: the version is 1 or left at 0, and keys and addresses are there, IPv4 and not
      repeated. */
  lemma SaveFaultIff(snap: Snapshot)
    ensures SaveFault(snap) == None <==> (snap.version == 0 || snap.version == 1) && WellFormed(snap.leases)
  {
    SnapshotFaultFree(snap.leases, |snap.leases|);
    assert snap.leases[..|snap.leases|] == snap.leases;
  }

  /** A saved document: version 1, one entry per lease in order, each with the lease's key and address and
      the whole seconds of its times; the zero time is left out. */
  lemma SavedDocument(snap: Snapshot)
    requires SaveFault(snap) == None
    ensures Decode(SnapshotBytes(snap)).Some?
    ensures WrittenFrom(snap.leases, Decode(SnapshotBytes(snap)).value)
  {
    DecodeEncode(FileSnapshot(Some(SCHEMA_VERSION), Some(ToFileLeases(snap.leases))));
    SaveFaultIff(snap);
    forall i | 0 <= i < |snap.leases| ensures WrittenAs(snap.leases[i], ToFileLeases(snap.leases)[i]) {
      assert snap.leases[i] in snap.leases;
      TimeWritten(snap.leases[i].created);
      TimeWritten(snap.leases[i].seen);
      TimeWritten(snap.leases[i].active);
    }
  }

  lemma TimeWritten(t: Time)
    ensures TextOf(t, FormatTime(t))
  {
  }

  ghost predicate WrittenFrom(ls: seq<Lease>, raw: FileSnapshot) {
    && raw.version == Some(1) && raw.leases.Some? && |raw.leases.value| == |ls|
    && forall i | 0 <= i < |ls| :: WrittenAs(ls[i], raw.leases.value[i])
  }

  ghost predicate WrittenAs(l: Lease, fl: FileLease) {
    && fl.stackKey == l.key && fl.vip == AddrText(l.vip)
    && TextOf(l.created, fl.created) && TextOf(l.seen, fl.seen) && TextOf(l.active, fl.active)
  }

  ghost predicate TextOf(t: Time, s: TimeText) {
    match s
    case NoTime => t == 0
    case Stamp(seconds, nanos) => t != 0 && InRange(t) && nanos == 0 && seconds == t / 1_000_000_000
    case BadTime => !InRange(t)
  }

  class JSONStore {
    var fs: Fs

    constructor (fs: Fs)
      ensures this.fs == fs
    {
      this.fs := fs;
    }

    method Load(ioError: bool) returns (r: Result<Snapshot, LoadError>)
      ensures r == LoadOn(fs, ioError)
    {
      if ioError { return Err(IO); }
      if fs.main.None? { return Ok(Snapshot(SCHEMA_VERSION, [])); }
      var data := fs.main.value.data;
      if data == [] { return Err(Corrupt(EmptyFile)); }
      var raw := Decode(data);
      if raw.None? { return Err(Corrupt(Syntax)); }
      r := ValidateAndConvert(raw.value);
    }

    /** Save, step by step; `o` decides which step, if any, stops it. */
    method Save(snapshot: Snapshot, o: Outcome) returns (r: SaveResult)
      requires Possible(o)
      modifies this
      ensures SaveRun(fs, r) == SaveOn(old(fs), snapshot, o)
    {
      var snap := snapshot;
      if snap.version == 0 { snap := snap.(version := SCHEMA_VERSION); }
      if snap.version != SCHEMA_VERSION { return NotSaved(BadVersion); }
      var bad := ValidateSnapshot(snap.leases);
      if bad.Some? { return NotSaved(bad.value); }
      if StopsAt(o, EnsureDir) { return ResultOf(o); }
      var raw := ToFileSnapshot(snap);
      var data := Encode(raw);
      if StopsAt(o, OpenTmp) { return ResultOf(o); }
      fs := fs.(tmp := Some(File([], false)));
      if StopsAt(o, ChmodTmp) { r := Abandon(o); return; }
      if StopsAt(o, WriteTmp) {
        fs := fs.(tmp := Some(File(Prefix(data, if o.Fails? then o.written else o.upTo), false)));
        r := Abandon(o); return;
      }
      fs := fs.(tmp := Some(File(data, false)));
      if StopsAt(o, SyncTmp) { r := Abandon(o); return; }
      fs := fs.(tmp := Some(File(data, true)));
      if StopsAt(o, CloseTmp) { r := Abandon(o); return; }
      if StopsAt(o, RenameTmp) { r := Abandon(o); return; }
      fs := Fs(fs.tmp, None, fs.older + [fs.main]);
      if StopsAt(o, SyncDir) { return Died; }
      if o.dirSynced { fs := fs.(older := []); }
      return Saved;
    }

    /** The error path of a step after the temp file exists: try to remove it; a dead process does not. */
    method Abandon(o: Outcome) returns (r: SaveResult)
      requires !o.Works?
      modifies this
      ensures fs == if o.Fails? && o.removed then old(fs).(tmp := None) else old(fs)
      ensures r == ResultOf(o)
    {
      if o.Dies? { return Died; }
      if o.removed { fs := fs.(tmp := None); }
      return NotSaved(StepFailed(o.step));
    }
  }

  // ---------------------------------------------------------------- crash safety

  /** Whatever stops Save, and wherever: state.json holds the complete old or the complete new
      snapshot. It is the new one exactly when Save succeeds or the process dies after the rename; an
      error means it is unchanged. */
  lemma SaveIsAtomic(fs: Fs, snap: Snapshot, o: Outcome)
    requires Possible(o)
    ensures var run := SaveOn(fs, snap, o);
            var done := run.result == Saved || (run.result == Died && o.at == SyncDir);
            && run.fs.main == (if done then Some(File(SnapshotBytes(snap), true)) else fs.main)
            && (run.result.NotSaved? ==> run.fs.main == fs.main && run.fs.older == fs.older)
            && (run.result == Saved <==> o.Works? && SaveFault(snap) == None)
  {
  }

  /** A Save that reports an error touches nothing but the temp file. */
  lemma FailedSaveKeeps(fs: Fs, snap: Snapshot, o: Outcome)
    requires Possible(o) && !o.Dies?
    ensures SaveOn(fs, snap, o).result == Saved ==> o.Works?
    ensures SaveOn(fs, snap, o).result != Saved ==>
              SaveOn(fs, snap, o).fs == fs.(tmp := SaveOn(fs, snap, o).fs.tmp)
  {
  }

  /** Leftovers of an interrupted Save never matter: neither a Load nor what a later Save does to
      state.json depends on the temp file. */
  lemma TmpIsIrrelevant(a: Fs, b: Fs, snap: Snapshot, o: Outcome, ioError: bool)
    requires a.main == b.main && Possible(o)
    ensures LoadOn(a, ioError) == LoadOn(b, ioError)
    ensures SaveOn(a, snap, o).result == SaveOn(b, snap, o).result
    ensures SaveOn(a, snap, o).fs.main == SaveOn(b, snap, o).fs.main
  {
  }

  /** What a file may hold after a power failure. */
  ghost predicate Survives(before: Option<File>, after: Option<File>) {
    match before
    case None => after == None
    case Some(f) => after.Some? && (f.synced ==> after.value.data == f.data)
  }

  /** A power failure keeps the current state.json or brings back one that was replaced since the
      directory was last forced to disk; contents never forced to disk may be anything. */
  ghost predicate PowerFailure(before: Fs, after: Fs) {
    exists f :: (f == before.main || f in before.older) && Survives(f, after.main)
  }

  /** Every version of state.json that can come back is complete on disk. */
  ghost predicate Durable(fs: Fs) {
    && (fs.main.Some? ==> fs.main.value.synced)
    && (forall f <- fs.older :: f.Some? ==> f.value.synced)
  }

  ghost predicate SameData(a: Option<File>, b: Option<File>) {
    match a
    case None => b.None?
    case Some(f) => b.Some? && b.value.data == f.data
  }

  /** Save keeps the file system durable, so a power failure at any of its steps (and after) leaves a
      complete snapshot: the new one, the one before, or, while directory syncs keep failing, one
      before that; never a torn file. */
  lemma PowerFailureIsSafe(fs: Fs, snap: Snapshot, o: Outcome, after: Fs)
    requires Possible(o) && Durable(fs)
    requires PowerFailure(SaveOn(fs, snap, o).fs, after)
    ensures Durable(SaveOn(fs, snap, o).fs)
    ensures || SameData(Some(File(SnapshotBytes(snap), true)), after.main)
            || SameData(fs.main, after.main)
            || exists f <- fs.older :: SameData(f, after.main)
    ensures SaveOn(fs, snap, o).result == Saved && o.dirSynced ==>
              SameData(Some(File(SnapshotBytes(snap), true)), after.main)
  {
    var fs' := SaveOn(fs, snap, o).fs;
    SaveIsAtomic(fs, snap, o);
    var f :| (f == fs'.main || f in fs'.older) && Survives(f, after.main);
    assert fs'.older == fs.older || fs'.older == fs.older + [fs.main] || fs'.older == [];
    assert SameData(f, after.main);
  }

  // ---------------------------------------------------------------- round trip

  function FloorLease(l: Lease): Lease {
    l.(created := Floor(l.created), seen := Floor(l.seen), active := Floor(l.active))
  }

  function FloorAll(ls: seq<Lease>): seq<Lease> {
    seq(|ls|, i requires 0 <= i < |ls| => FloorLease(ls[i]))
  }

  predicate TimesInRange(l: Lease) {
    InRange(l.created) && InRange(l.seen) && InRange(l.active)
  }

  predicate AllInRange(ls: seq<Lease>) {
    forall l <- ls :: TimesInRange(l)
  }

  lemma LeaseRoundTrip(l: Lease)
    requires l.key != "" && l.vip.V4?
    ensures Readable(ToFileLease(l)) <==> TimesInRange(l)
    ensures TimesInRange(l) ==> Convert(ToFileLease(l)) == FloorLease(l)
  {
    TimeRoundTrip(l.created);
    TimeRoundTrip(l.seen);
    TimeRoundTrip(l.active);
  }

  /** What Save wrote, Load reads: the same leases in the same order, each time floored to its second;
      and this fails only for times outside the years 0 to 9999. */
  lemma LoadAfterSave(fs: Fs, snap: Snapshot, o: Outcome)
    requires Possible(o) && SaveOn(fs, snap, o).result == Saved
    ensures var loaded := LoadOn(SaveOn(fs, snap, o).fs, false);
            && (loaded.Ok? <==> AllInRange(snap.leases))
            && (loaded.Ok? ==> loaded.value == Snapshot(SCHEMA_VERSION, FloorAll(snap.leases)))
  {
    SaveIsAtomic(fs, snap, o);
    LoadWritten(SaveOn(fs, snap, o).fs, snap);
  }

  lemma LoadWritten(fs: Fs, snap: Snapshot)
    requires SaveFault(snap) == None && fs.main == Some(File(SnapshotBytes(snap), true))
    ensures var loaded := LoadOn(fs, false);
            && (loaded.Ok? <==> AllInRange(snap.leases))
            && (loaded.Ok? ==> loaded.value == Snapshot(SCHEMA_VERSION, FloorAll(snap.leases)))
  {
    var ls := snap.leases;
    var fls := ToFileLeases(ls);
    DecodeEncode(FileSnapshot(Some(SCHEMA_VERSION), Some(fls)));
    SnapshotFaultFree(ls, |ls|);
    assert ls[..|ls|] == ls && fls[..|fls|] == fls;
    FaultFree(fls, |fls|);
    WrittenIsGood(ls);
    if AllInRange(ls) {
      forall i | 0 <= i < |ls| ensures ConvertAll(fls)[i] == FloorAll(ls)[i] {
        assert ls[i] in ls;
        LeaseRoundTrip(ls[i]);
      }
      assert ConvertAll(fls) == FloorAll(ls);
    }
  }

  lemma WrittenIsGood(ls: seq<Lease>)
    requires WellFormed(ls)
    ensures GoodFile(ToFileLeases(ls)) <==> AllInRange(ls)
  {
    var fls := ToFileLeases(ls);
    forall i | 0 <= i < |ls| ensures Readable(fls[i]) <==> TimesInRange(ls[i]) {
      assert ls[i] in ls;
      LeaseRoundTrip(ls[i]);
    }
    if GoodFile(fls) {
      forall l | l in ls ensures TimesInRange(l) {
        var i :| 0 <= i < |ls| && ls[i] == l;
        assert fls[i] in fls;
      }
    }
    if AllInRange(ls) {
      forall fl | fl in fls ensures Readable(fl) {
        var i :| 0 <= i < |fls| && fls[i] == fl;
        assert ls[i] in ls;
      }
      forall i, j | 0 <= i < j < |fls| ensures fls[i].stackKey != fls[j].stackKey && fls[i].vip != fls[j].vip {
        assert ls[i].key != ls[j].key && ls[i].vip != ls[j].vip && ls[i] in ls && ls[j] in ls;
      }
    }
  }

  /** Saving what was loaded changes nothing more. */
  lemma SecondRoundTrip(fs: Fs, snap: Snapshot, o: Outcome, o': Outcome)
    requires Possible(o) && SaveOn(fs, snap, o).result == Saved && AllInRange(snap.leases) && o'.Works?
    ensures var fs' := SaveOn(fs, snap, o).fs;
            LoadOn(fs', false).Ok? &&
            var loaded := LoadOn(fs', false).value;
            && SaveOn(fs', loaded, o').result == Saved
            && LoadOn(SaveOn(fs', loaded, o').fs, false) == Ok(loaded)
  {
    LoadAfterSave(fs, snap, o);
    var fs' := SaveOn(fs, snap, o).fs;
    var loaded := LoadOn(fs', false).value;
    LoadedIsWellFormed(fs', false);
    SnapshotFaultFree(loaded.leases, |loaded.leases|);
    assert loaded.leases[..|loaded.leases|] == loaded.leases;
    FlooredInRange(snap.leases);
    LoadAfterSave(fs', loaded, o');
    assert FloorAll(FloorAll(snap.leases)) == FloorAll(snap.leases) by {
      forall l: Lease ensures FloorLease(FloorLease(l)) == FloorLease(l) {
        FloorTwice(l.created);
        FloorTwice(l.seen);
        FloorTwice(l.active);
      }
    }
  }

  lemma FlooredInRange(ls: seq<Lease>)
    requires AllInRange(ls)
    ensures AllInRange(FloorAll(ls))
  {
    forall l | l in FloorAll(ls) ensures TimesInRange(l) {
      var i :| 0 <= i < |ls| && FloorAll(ls)[i] == l;
      assert ls[i] in ls;
      FloorTwice(ls[i].created);
      FloorTwice(ls[i].seen);
      FloorTwice(ls[i].active);
    }
  }

  /** Whatever Load accepts, Save accepts: the two validators agree on structure. */
  lemma LoadedIsWellFormed(fs: Fs, ioError: bool)
    requires LoadOn(fs, ioError).Ok?
    ensures WellFormed(LoadOn(fs, ioError).value.leases)
  {
    if fs.main.Some? {
      var raw := Decode(fs.main.value.data).value;
      var fls := LeasesOf(raw);
      FaultFree(fls, |fls|);
      assert fls[..|fls|] == fls;
      ConvertedIsWellFormed(fls);
    }
  }

  lemma ConvertedIsWellFormed(fls: seq<FileLease>)
    requires GoodFile(fls)
    ensures WellFormed(ConvertAll(fls))
  {
    var ls := ConvertAll(fls);
    forall l | l in ls ensures l.key != "" && l.vip.V4? {
      var i :| 0 <= i < |ls| && ls[i] == l;
      assert fls[i] in fls;
    }
    forall i, j | 0 <= i < j < |ls| ensures ls[i].key != ls[j].key && ls[i].vip != ls[j].vip {
      assert fls[i] in fls && fls[j] in fls;
    }
  }
}
