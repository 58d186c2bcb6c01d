/** RetrieveData: the change-detection gate that re-reads and re-parses the
    team-members file only when its checksum differs from the last one that
    led to a successful parse. One call is one step of a state machine over
    (latestMd5, isReadingFile, teamsMemberTable). */
module ChangeGate {
  import opened Wrappers
  import opened Members
  import TrailingCommas

  newtype byte = x: int | 0 <= x < 256

  /** What the file system yields to one call. The call reads the file twice,
      as bytes for the checksum and then as text for parsing; each read either
      throws (None) or yields content, and the two need not agree, since the
      file can change between them. */
  datatype FileSnapshot = FileSnapshot(bytes: Option<seq<byte>>, text: Option<string>)

  /** JsonUtility.FromJson either throws or returns a table reference, which
      may be null. */
  datatype ParseOutcome = ParseThrew | Parsed(table: Option<Table>)

  /** The foreign calls the gate makes: the checksum of the file bytes (MD5
      rendered as a string, compared only by equality) and the JSON parser. */
  datatype Host = Host(hash: seq<byte> -> string, parse: string -> ParseOutcome)

  /** The component's fields: the checksum of the last successfully parsed
      content, the re-entrancy guard and the cached table. */
  datatype Watcher = Watcher(latestMd5: Option<string>, isReadingFile: bool, table: Option<Table>)

  /** Field defaults of a fresh component: null checksum, guard clear, null table. */
  const Initial: Watcher := Watcher(None, false, None)

  /** Which way a call went through RetrieveData. */
  datatype Path =
    | Busy          // guard already set: nothing read
    | Unchanged     // checksum equals latestMd5: nothing re-read
    | Reloaded      // text re-read, repaired and parsed
    | HashFailed    // reading the bytes threw
    | ReadFailed    // reading the text threw
    | ParseFailed   // the parser threw

  /** The state after a call, and the way it went. The call returns the new
      state's table. */
  datatype Tick = Tick(next: Watcher, path: Path)

  /** The paths on which the parser was called. */
  predicate ParseInvoked(p: Path)
  {
    p == Reloaded || p == ParseFailed
  }

  /** The checksum the call computes differs from the stored one (a null
      stored checksum differs from every string). */
  predicate ChecksumDiffers(w: Watcher, bytes: seq<byte>, host: Host)
  {
    w.latestMd5 != Some(host.hash(bytes))
  }

  /** One call of RetrieveData; every exception is caught and only clears the
      guard. */
  function RetrieveData(w: Watcher, file: FileSnapshot, host: Host): (t: Tick)
    ensures w.isReadingFile ==> t == Tick(w, Busy)
    ensures t.path == Busy <==> w.isReadingFile
    ensures !w.isReadingFile && file.bytes.None? ==> t.path == HashFailed
    ensures !w.isReadingFile ==> !t.next.isReadingFile
    ensures !w.isReadingFile && file.bytes.Some? && !ChecksumDiffers(w, file.bytes.value, host)
            ==> t == Tick(w, Unchanged)
    ensures ParseInvoked(t.path) <==>
            (&& !w.isReadingFile
             && file.bytes.Some? && ChecksumDiffers(w, file.bytes.value, host)
             && file.text.Some?)
    ensures t.path == Reloaded <==>
            (&& ParseInvoked(t.path)
             && file.text.Some?
             && host.parse(TrailingCommas.Repair(file.text.value)).Parsed?)
    ensures t.path == Reloaded ==>
            && file.bytes.Some? && file.text.Some?
            && t.next.latestMd5 == Some(host.hash(file.bytes.value))
            && host.parse(TrailingCommas.Repair(file.text.value)) == Parsed(t.next.table)
    ensures t.path != Reloaded ==> t.next.latestMd5 == w.latestMd5 && t.next.table == w.table
  {
    if w.isReadingFile then Tick(w, Busy)
    else
      var idle := w.(isReadingFile := false);
      match file.bytes
      case None => Tick(idle, HashFailed)
      case Some(bytes) =>
        var checksum := host.hash(bytes);
        if Some(checksum) == w.latestMd5 then Tick(idle, Unchanged)
        else
          match file.text
          case None => Tick(idle, ReadFailed)
          case Some(text) =>
            match host.parse(TrailingCommas.Repair(text))
            case ParseThrew => Tick(idle, ParseFailed)
            case Parsed(table) => Tick(Watcher(Some(checksum), false, table), Reloaded)
  }

  /** The state after one call per snapshot, in order. */
  function Run(w: Watcher, files: seq<FileSnapshot>, host: Host): (r: Watcher)
    ensures !w.isReadingFile ==> !r.isReadingFile
    ensures w.isReadingFile ==> r == w
    decreases |files|
  {
    if |files| == 0 then w
    else Run(RetrieveData(w, files[0], host).next, files[1..], host)
  }

  /** How many of the calls in a run took a path `which` selects. */
  function CountPaths(w: Watcher, files: seq<FileSnapshot>, host: Host, which: Path -> bool): (n: nat)
    ensures n <= |files|
    decreases |files|
  {
    if |files| == 0 then 0
    else
      var t := RetrieveData(w, files[0], host);
      (if which(t.path) then 1 else 0) + CountPaths(t.next, files[1..], host, which)
  }

  /** `n` calls that all see the same file. */
  function Repeat(file: FileSnapshot, n: nat): seq<FileSnapshot>
  {
    seq(n, _ => file)
  }

  /** The snapshot `file` accounts for both halves of the state: the stored
      checksum is its bytes' checksum and the cached table its repaired
      text's parse. */
  predicate Explains(file: FileSnapshot, w: Watcher, host: Host)
  {
    && file.bytes.Some? && file.text.Some?
    && w.latestMd5 == Some(host.hash(file.bytes.value))
    && host.parse(TrailingCommas.Repair(file.text.value)) == Parsed(w.table)
  }

  /** The state is the initial one, or one snapshot among `seen` accounts for
      its checksum and its table together. */
  predicate ExplainedBy(w: Watcher, seen: seq<FileSnapshot>, host: Host)
  {
    || (w.latestMd5 == None && w.table == None)
    || exists i :: 0 <= i < |seen| && Explains(seen[i], w, host)
  }

  /** The checksum and the table are only ever replaced together, from one
      and the same snapshot: every state a run reaches is accounted for by a
      snapshot it saw. */
  lemma {:induction false} RunStaysExplained(w: Watcher, seen: seq<FileSnapshot>, files: seq<FileSnapshot>, host: Host)
    requires ExplainedBy(w, seen, host)
    ensures ExplainedBy(Run(w, files, host), seen + files, host)
    decreases |files|
  {
    if |files| == 0 {
      assert seen + files == seen;
      if !(w.latestMd5 == None && w.table == None) {
        var i :| 0 <= i < |seen| && Explains(seen[i], w, host);
        assert (seen + files)[i] == seen[i];
      }
    } else {
      var t := RetrieveData(w, files[0], host);
      var seen' := seen + [files[0]];
      if t.path == Reloaded {
        assert Explains(seen'[|seen|], t.next, host);
      } else if !(w.latestMd5 == None && w.table == None) {
        var i :| 0 <= i < |seen| && Explains(seen[i], w, host);
        assert Explains(seen'[i], t.next, host);
      }
      RunStaysExplained(t.next, seen', files[1..], host);
      assert seen' + files[1..] == seen + files;
    }
  }

  /** From a fresh component, whatever has been read, the cached table and
      checksum come from one snapshot, or are both still null. */
  lemma FromInitialExplained(files: seq<FileSnapshot>, host: Host)
    ensures ExplainedBy(Run(Initial, files, host), files, host)
  {
    RunStaysExplained(Initial, [], files, host);
    assert [] + files == files;
  }

  /** A run in which no call reloads leaves the checksum and the table as they
      were. */
  lemma {:induction false} NoReloadNoChange(w: Watcher, files: seq<FileSnapshot>, host: Host)
    requires CountPaths(w, files, host, p => p == Reloaded) == 0
    ensures Run(w, files, host).latestMd5 == w.latestMd5
    ensures Run(w, files, host).table == w.table
    decreases |files|
  {
    if |files| > 0 {
      NoReloadNoChange(RetrieveData(w, files[0], host).next, files[1..], host);
    }
  }

  /** Starting with the guard clear, no call of a run ever finds it set. */
  lemma {:induction false} GuardNeverObservedSet(w: Watcher, files: seq<FileSnapshot>, host: Host)
    requires !w.isReadingFile
    ensures CountPaths(w, files, host, p => p == Busy) == 0
    decreases |files|
  {
    if |files| > 0 {
      GuardNeverObservedSet(RetrieveData(w, files[0], host).next, files[1..], host);
    }
  }

  /** The file reads and parses cleanly. */
  predicate Parses(file: FileSnapshot, host: Host)
  {
    && file.bytes.Some? && file.text.Some?
    && host.parse(TrailingCommas.Repair(file.text.value)).Parsed?
  }

  /** Re-reading an unchanged, well-formed file parses it at most once: once
      when its checksum is not the stored one, never when it is. */
  lemma {:induction false} UnchangedFileParsedAtMostOnce(w: Watcher, file: FileSnapshot, n: nat, host: Host)
    requires !w.isReadingFile
    requires Parses(file, host)
    ensures CountPaths(w, Repeat(file, n), host, ParseInvoked) ==
            (if n == 0 || !ChecksumDiffers(w, file.bytes.value, host) then 0 else 1)
    decreases n
  {
    if n > 0 {
      var t := RetrieveData(w, file, host);
      assert Repeat(file, n)[1..] == Repeat(file, n - 1);
      UnchangedFileParsedAtMostOnce(t.next, file, n - 1, host);
    }
  }

  /** A file whose text the parser rejects is re-read and re-parsed on every
      call, as long as its checksum differs from the stored one. */
  lemma {:induction false} RejectedFileRetriedEveryCall(w: Watcher, file: FileSnapshot, n: nat, host: Host)
    requires !w.isReadingFile
    requires file.bytes.Some? && file.text.Some?
    requires ChecksumDiffers(w, file.bytes.value, host)
    requires host.parse(TrailingCommas.Repair(file.text.value)) == ParseThrew
    ensures CountPaths(w, Repeat(file, n), host, ParseInvoked) == n
    ensures Run(w, Repeat(file, n), host) == w
    decreases n
  {
    if n > 0 {
      var t := RetrieveData(w, file, host);
      assert Repeat(file, n)[1..] == Repeat(file, n - 1);
      RejectedFileRetriedEveryCall(t.next, file, n - 1, host);
    }
  }
}
