/** One load of the key file (keyfile/reload.go, attempt; keyfile/load.go, parse): what a snapshot
    is and which snapshot a given version of the file makes. */
module KeyFile {
  import opened GoTypes
  import opened Entries
  import opened Truncation

  const MAX_FILE_SIZE: nat := 0x10_0000

  /** What stat says about a version of the file; ZERO is the signature of none of them. */
  datatype FileSig = FileSig(ino: nat, mtimeNS: int, ctimeNS: int, size: nat, missing: bool)

  const ZERO := FileSig(0, 0, 0, 0, false)
  const MISSING := FileSig(0, 0, 0, 0, true)

  /** `fileSHA` is the digest itself, or empty. */
  datatype Snapshot = Snapshot(keys: map<Digest, KeyEntry>, sig: FileSig, fileSHA: seq<Byte>, ok: bool)

  function DenyAll(sig: FileSig, fileSHA: seq<Byte>, ok: bool): Snapshot {
    Snapshot(map[], sig, fileSHA, ok)
  }

  /** Denying all means to hold no key. */
  predicate SnapshotOk(snap: Snapshot) {
    !snap.ok ==> snap.keys == map[]
  }

  /** What an attempt returns: a snapshot and whether it came with an error. */
  datatype Outcome = Outcome(snap: Snapshot, failed: bool)

  /** Everything that may be transient: a panic, an I/O error, a refused parent directory. */
  const UNREADABLE := Outcome(DenyAll(ZERO, [], false), true)
  const NO_FILE := Outcome(DenyAll(MISSING, [], true), false)

  function Rejected(sig: FileSig, fileSHA: seq<Byte>): Outcome {
    Outcome(DenyAll(sig, fileSHA, false), true)
  }

  /** What the path leads to. `Refused`: a symlink, a wrong type, a writable file or an untrusted owner. */
  datatype Body = Absent | Refused | Content(data: string)

  datatype FileVersion = FileVersion(sig: FileSig, body: Body)

  predicate VersionOk(v: FileVersion) {
    if v.body.Absent? then v.sig == MISSING else v.sig != ZERO && !v.sig.missing
  }

  /** Fixed at Open. `decode` is strict YAML decoding of a file with the right version and end
      marker; `sha256` is left open. */
  datatype Setup = Setup(
    rules: Rules,
    decode: string -> Option<seq<RawKey>>,
    sha256: string -> Digest,
    prefix: string,
    statTTL: int)

  /** The raw entries of a file that is structurally sound. */
  function RawKeys(setup: Setup, data: string): Option<seq<RawKey>> {
    if |data| > MAX_FILE_SIZE || !Marked(data) then None else setup.decode(data)
  }

  ghost function Parse(setup: Setup, ask: Answers, data: string): Option<seq<KeyEntry>> {
    match RawKeys(setup, data)
    case None => None
    case Some(keys) => Some(Kept(setup.rules, ask, multiset(keys), keys))
  }

  method ParseFile(setup: Setup, ask: Answers, data: string) returns (es: Option<seq<KeyEntry>>)
    ensures es == Parse(setup, ask, data)
  {
    if |data| > MAX_FILE_SIZE {
      return None;
    }
    var last := LastNonBlankLine(data);
    if last != MARKER {
      return None;
    }
    var raw := setup.decode(data);
    if raw.None? {
      return None;
    }
    var kept := FilterEntries(setup.rules, ask, raw.value);
    return Some(kept);
  }

  ghost function Parsed(setup: Setup, ask: Answers, sig: FileSig, data: string): Outcome {
    var sum := setup.sha256(data);
    match Parse(setup, ask, data)
    case None => Rejected(sig, sum)
    case Some(es) => Outcome(Snapshot(MapOf(es), sig, sum, true), false)
  }

  /** An undisturbed load of one version of the file. */
  ghost function CleanLoad(setup: Setup, ask: Answers, v: FileVersion): Outcome {
    match v.body
    case Absent => NO_FILE
    case Refused => Rejected(v.sig, [])
    case Content(data) => if |data| > MAX_FILE_SIZE then Rejected(v.sig, []) else Parsed(setup, ask, v.sig, data)
  }

  /** A load denies everything unless the file is there, accepted and sound; then its keys are exactly
      the surviving entries of the file, one key each. */
  lemma CleanLoadKeys(setup: Setup, ask: Answers, v: FileVersion)
    ensures var o := CleanLoad(setup, ask, v);
            if v.body.Content? && RawKeys(setup, v.body.data).Some?
            then !o.failed && o.snap.ok
                 && o.snap.keys == Loaded(setup.rules, ask, RawKeys(setup, v.body.data).value)
            else o.snap.keys == map[] && o.snap.ok == v.body.Absent?
    ensures CleanLoad(setup, ask, v).snap.sig == v.sig || v.body.Absent?
    ensures CleanLoad(setup, ask, v).failed <==> !CleanLoad(setup, ask, v).snap.ok
  {
  }

  /** Which bytes load, said of the bytes: no more than the limit, the last line that is not blank is the
      marker, and they decode. Then the keys are those of the decoded entries; otherwise there are none, and
      the rejected version is on record. */
  lemma LoadsExactly(setup: Setup, ask: Answers, sig: FileSig, data: string)
    ensures var o, kept := CleanLoad(setup, ask, FileVersion(sig, Content(data))), NonBlank(Lines(data));
            && (!o.failed <==>
                  && |data| <= 0x10_0000
                  && kept != [] && TrimCR(kept[|kept| - 1]) == "end: true"
                  && setup.decode(data).Some?)
            && (!o.failed ==>
                  && o.snap.keys == Loaded(setup.rules, ask, setup.decode(data).value)
                  && o.snap.fileSHA == setup.sha256(data) && o.snap.sig == sig)
            && (o.failed ==>
                  && o.snap.keys == map[] && !o.snap.ok && o.snap.sig == sig
                  && o.snap.fileSHA == if |data| > 0x10_0000 then [] else setup.sha256(data))
  {
    CleanLoadKeys(setup, ask, FileVersion(sig, Content(data)));
    NoMarkerIsNoLine();
  }

  lemma NoMarkerIsNoLine()
    ensures MARKER == "end: true" && MARKER != ""
  {
  }

  /** Truncation safety of the load: if the marker begins no line but the last one that is not blank, then
      however the file is cut short, either the load fails and denies everything, or nothing is lost but blank
      lines and a final carriage return. */
  lemma CutsAreNoticed(setup: Setup, ask: Answers, sig: FileSig, data: string, n: nat)
    requires MarkerOnlyLast(data) && n < |data|
    ensures var o := CleanLoad(setup, ask, FileVersion(sig, Content(data[..n])));
            (o.failed && !o.snap.ok && o.snap.keys == map[]) || Substance(data[..n]) == Substance(data)
  {
    CleanLoadKeys(setup, ask, FileVersion(sig, Content(data[..n])));
    LoadsExactly(setup, ask, sig, data[..n]);
    TruncationShowsExactly(data);
  }
}
