/** `cleanup_temp_files`: one sweep over the temporary directory that removes every file older
    than the threshold. The clock and the filesystem are parameters: each file's modification
    time in seconds (or the fact that `stat()` raises on it), the current time, and whether
    `os.remove` succeeds on a given file. */
module TempCleanup {
  import opened Outcomes
  import VoiceInterface

  /** A file of the temporary directory with what `file_path.stat()` gives: its modification
      time in seconds, or None when the call raises (a dangling link, a file removed while the
      sweep runs). */
  datatype TempEntry = TempEntry(file: VoiceInterface.TempFile, mtime: Option<int>)

  const DefaultMaxAgeHours: int := 24

  /** `(current_time - st_mtime) / 3600 > max_age_hours`, in exact arithmetic, for a file whose
      modification time could be read. */
  predicate Expired(e: TempEntry, now: int, maxAgeHours: int) {
    e.mtime.Some? && (now - e.mtime.value) as real / 3600.0 > maxAgeHours as real
  }

  /** The age test is the same as comparing whole seconds with `max_age_hours * 3600`. */
  lemma ExpiredInSeconds(e: TempEntry, now: int, maxAgeHours: int)
    ensures Expired(e, now, maxAgeHours) <==> e.mtime.Some? && now - e.mtime.value > maxAgeHours * 3600
  {
    if e.mtime.Some? {
      var age := (now - e.mtime.value) as real;
      assert age / 3600.0 > maxAgeHours as real <==> age > (maxAgeHours * 3600) as real;
    }
  }

  /** What one sweep did: files removed, files whose removal raised (logged and skipped), the
      entries still in the directory afterwards, and whether a `stat()` raised and ended it. */
  datatype Sweep = Sweep(removed: seq<VoiceInterface.TempFile>, failed: seq<VoiceInterface.TempFile>,
                         kept: seq<TempEntry>, aborted: bool)

  /** Where the loop stops: the first entry whose `stat()` raises, or the end of the listing. */
  function FirstUnreadable(entries: seq<TempEntry>): (n: nat)
    ensures n <= |entries|
    ensures forall k :: 0 <= k < n ==> entries[k].mtime.Some?
    ensures n == |entries| || entries[n].mtime.None?
  {
    if |entries| == 0 || entries[0].mtime.None? then 0 else 1 + FirstUnreadable(entries[1..])
  }

  /** The loop body over entries whose `stat()` succeeds: remove each expired file; a removal
      that raises is logged and the file stays. */
  function Visit(entries: seq<TempEntry>, now: int, maxAgeHours: int,
                 removable: VoiceInterface.TempFile -> bool): (s: Sweep)
    ensures |s.removed| + |s.kept| == |entries| && !s.aborted
    ensures forall f :: f in s.removed <==>
              exists e :: e in entries && e.file == f && Expired(e, now, maxAgeHours) && removable(f)
    ensures forall f :: f in s.failed <==>
              exists e :: e in entries && e.file == f && Expired(e, now, maxAgeHours) && !removable(f)
    ensures forall e :: e in s.kept <==> e in entries && (!Expired(e, now, maxAgeHours) || !removable(e.file))
  {
    if |entries| == 0 then Sweep([], [], [], false)
    else
      var e := entries[0];
      var rest := Visit(entries[1..], now, maxAgeHours, removable);
      assert forall x :: x in entries <==> x == e || x in entries[1..];
      if !Expired(e, now, maxAgeHours) then Sweep(rest.removed, rest.failed, [e] + rest.kept, false)
      else if removable(e.file) then Sweep([e.file] + rest.removed, rest.failed, rest.kept, false)
      else Sweep(rest.removed, [e.file] + rest.failed, [e] + rest.kept, false)
  }

  /** `cleanup_temp_files`: the loop visits the entries up to the first whose `stat()` raises;
      that exception propagates out of the function and ends the sweep, leaving that entry and
      every later one in place. */
  function CleanupTempFiles(entries: seq<TempEntry>, now: int, maxAgeHours: int,
                            removable: VoiceInterface.TempFile -> bool): (s: Sweep)
    ensures |s.removed| + |s.kept| == |entries|
    ensures s.aborted <==> exists k :: 0 <= k < |entries| && entries[k].mtime.None?
    ensures forall f :: f in s.removed <==>
              exists e :: e in entries[..FirstUnreadable(entries)] && e.file == f &&
                          Expired(e, now, maxAgeHours) && removable(f)
    ensures forall f :: f in s.failed <==>
              exists e :: e in entries[..FirstUnreadable(entries)] && e.file == f &&
                          Expired(e, now, maxAgeHours) && !removable(f)
    ensures Untouched(entries, s.kept)
    ensures forall e :: e in Survivors(entries, s.kept) <==>
              e in entries[..FirstUnreadable(entries)] && (!Expired(e, now, maxAgeHours) || !removable(e.file))
  {
    var n := FirstUnreadable(entries);
    var v := Visit(entries[..n], now, maxAgeHours, removable);
    var s := Sweep(v.removed, v.failed, v.kept + entries[n..], n < |entries|);
    assert Survivors(entries, s.kept) == v.kept;
    s
  }

  /** The entries from the first unreadable one on end the kept list, in their order. */
  predicate Untouched(entries: seq<TempEntry>, kept: seq<TempEntry>) {
    var n := FirstUnreadable(entries);
    |entries| - n <= |kept| && kept[|kept| - (|entries| - n)..] == entries[n..]
  }

  /** The kept entries the loop reached and left: the ones before the untouched tail. */
  function Survivors(entries: seq<TempEntry>, kept: seq<TempEntry>): seq<TempEntry>
    requires Untouched(entries, kept)
  {
    kept[..|kept| - (|entries| - FirstUnreadable(entries))]
  }

  /** Sweeping again at the same moment removes nothing more: whatever survived a sweep is
      young or cannot be removed, and the rest lies behind an entry whose `stat()` raises. */
  lemma SweepIsIdempotent(entries: seq<TempEntry>, now: int, maxAgeHours: int, removable: VoiceInterface.TempFile -> bool)
    ensures var once := CleanupTempFiles(entries, now, maxAgeHours, removable);
            var twice := CleanupTempFiles(once.kept, now, maxAgeHours, removable);
            twice.removed == [] && twice.kept == once.kept
  {
    var kept := CleanupTempFiles(entries, now, maxAgeHours, removable).kept;
    var n := FirstUnreadable(entries);
    var prefix := Survivors(entries, kept);
    assert kept == prefix + entries[n..];
    assert forall k :: 0 <= k < |prefix| ==> kept[k] == prefix[k] && prefix[k] in entries[..n];
    if n < |entries| {
      assert kept[|prefix|] == entries[n];
    }
    assert FirstUnreadable(kept) == |prefix|;
    assert kept[..|prefix|] == prefix;
    KeepAll(prefix, now, maxAgeHours, removable);
  }

  /** The loop removes nothing from a listing whose entries are all young or unremovable. */
  lemma {:induction false} KeepAll(kept: seq<TempEntry>, now: int, maxAgeHours: int, removable: VoiceInterface.TempFile -> bool)
    requires forall k :: 0 <= k < |kept| ==> !Expired(kept[k], now, maxAgeHours) || !removable(kept[k].file)
    ensures Visit(kept, now, maxAgeHours, removable).kept == kept
    ensures Visit(kept, now, maxAgeHours, removable).removed == []
  {
    if |kept| > 0 {
      var rest := kept[1..];
      assert forall k :: 0 <= k < |rest| ==> rest[k] == kept[k + 1];
      KeepAll(rest, now, maxAgeHours, removable);
      assert [kept[0]] + rest == kept;
    }
  }

  /** A directory holding files two and thirty hours old, with the 24-hour default threshold:
      only the thirty-hour file goes. */
  lemma TwoAndThirtyHours(young: VoiceInterface.TempFile, stale: VoiceInterface.TempFile, now: int,
                          removable: VoiceInterface.TempFile -> bool)
    requires young != stale && removable(stale)
    ensures var s := CleanupTempFiles([TempEntry(young, Some(now - 2 * 3600)), TempEntry(stale, Some(now - 30 * 3600))],
                                      now, DefaultMaxAgeHours, removable);
            s.removed == [stale] && s.kept == [TempEntry(young, Some(now - 2 * 3600))] && !s.aborted
  {
    var entries := [TempEntry(young, Some(now - 2 * 3600)), TempEntry(stale, Some(now - 30 * 3600))];
    assert FirstUnreadable(entries) == 2;
    assert entries[..2] == entries && entries[2..] == [];
    ExpiredInSeconds(entries[0], now, DefaultMaxAgeHours);
    ExpiredInSeconds(entries[1], now, DefaultMaxAgeHours);
    assert entries[1..] == [entries[1]] && [entries[1]][1..] == [];
    var last := Visit([entries[1]], now, DefaultMaxAgeHours, removable);
    assert last.removed == [stale] && last.kept == [];
    assert Visit(entries, now, DefaultMaxAgeHours, removable).kept == [entries[0]];
  }

  /** A file whose `stat()` raises ends the sweep: a stale file listed after it stays. */
  lemma UnreadableFileStopsSweep(broken: VoiceInterface.TempFile, stale: VoiceInterface.TempFile, now: int,
                                 removable: VoiceInterface.TempFile -> bool)
    requires removable(stale)
    ensures var s := CleanupTempFiles([TempEntry(broken, None), TempEntry(stale, Some(now - 30 * 3600))],
                                      now, DefaultMaxAgeHours, removable);
            s.aborted && s.removed == [] && TempEntry(stale, Some(now - 30 * 3600)) in s.kept
  {
  }
}
