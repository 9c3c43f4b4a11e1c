/**
  The shaping of Voice Memos recordings: each database row becomes a memo
  with an absolute path, a label (defaulted), a `m:ss` duration and a Unix
  timestamp, and only memos whose audio file exists are returned, in the
  order the database query gave them.
*/
module VoiceMemos {
  import opened Results
  import opened Strings
  import opened Filters

  // ---------------------------------------------------------------------------
  // Durations
  // ---------------------------------------------------------------------------

  /** `s.padStart(width, fill)` */
  function PadStart(s: string, width: nat, fill: char): (r: string)
    ensures |s| >= width ==> r == s
    ensures |s| < width ==> |r| == width && r[width - |s|..] == s
                            && forall k :: 0 <= k < width - |s| ==> r[k] == fill
    decreases width - |s|
  {
    if |s| >= width then s else PadStart([fill] + s, width, fill)
  }

  /** `totalSecs % 60` with JavaScript's `%`: the remainder takes the
      dividend's sign. */
  function SecondsPart(totalSecs: int): (r: int)
    ensures -60 < r < 60 && (totalSecs - r) % 60 == 0
    ensures totalSecs >= 0 ==> r == totalSecs % 60
    ensures totalSecs < 0 ==> r <= 0
  {
    if totalSecs >= 0 then totalSecs % 60 else -((-totalSecs) % 60)
  }

  /** `formatDuration` on the rounded number of seconds: whole minutes
      (floored), a colon, and the remaining seconds padded to two places. */
  function FormatDuration(totalSecs: int): string {
    var mins := totalSecs / 60;
    var secs := SecondsPart(totalSecs);
    IntToDecimal(mins) + ":" + PadStart(IntToDecimal(secs), 2, '0')
  }

  /** Reads a `m:ss` text back into seconds. */
  function ParseDuration(s: string): Option<nat> {
    if |s| >= 4 && s[|s| - 3] == ':' && AllDigits(s[..|s| - 3]) && AllDigits(s[|s| - 2..])
       && DigitsValue(s[|s| - 2..]) < 60
    then Some(DigitsValue(s[..|s| - 3]) * 60 + DigitsValue(s[|s| - 2..]))
    else None
  }

  /** The seconds field of a non-negative duration is two digits and below 60. */
  lemma SecondsField(totalSecs: nat)
    ensures var ss := PadStart(IntToDecimal(totalSecs % 60), 2, '0');
            |ss| == 2 && AllDigits(ss) && DigitsValue(ss) == totalSecs % 60
  {
    var secs := totalSecs % 60;
    var d := NatToDecimal(secs);
    DecimalOfSmall(secs);
    DecimalRoundTrip(secs);
    var ss := PadStart(d, 2, '0');
    if secs < 10 {
      assert ss == ['0'] + d;
      assert ss[..1] == "0" && ss[1..] == d;
      assert DigitsValue(ss) == DigitsValue(ss[..1]) * 10 + DigitValue(ss[1]);
      assert ss[..1][..0] == [];
    }
  }

  /** A non-negative duration has the form `<minutes>:<ss>`, and reading it
      back gives the number of seconds it came from. */
  lemma DurationRoundTrip(totalSecs: nat)
    ensures ParseDuration(FormatDuration(totalSecs)) == Some(totalSecs)
  {
    var mins := NatToDecimal(totalSecs / 60);
    var ss := PadStart(IntToDecimal(totalSecs % 60), 2, '0');
    SecondsField(totalSecs);
    DecimalRoundTrip(totalSecs / 60);
    var s := FormatDuration(totalSecs);
    assert s == mins + ":" + ss;
    assert s[..|s| - 3] == mins;
    assert s[|s| - 2..] == ss;
  }

  /** Distinct non-negative durations render differently. */
  lemma DurationInjective(a: nat, b: nat)
    requires FormatDuration(a) == FormatDuration(b)
    ensures a == b
  {
    DurationRoundTrip(a);
    DurationRoundTrip(b);
  }

  /** A negative duration keeps JavaScript's signs: five seconds before zero
      is minute -1 and second -5. */
  lemma NegativeDuration()
    ensures FormatDuration(-5) == "-1:-5"
  {
    assert NatToDecimal(1) == "1" && NatToDecimal(5) == "5";
  }

  // ---------------------------------------------------------------------------
  // Timestamps, labels and paths
  // ---------------------------------------------------------------------------

  /** Seconds from the Unix epoch to the Core Data epoch, 1 January 2001. */
  const AppleEpochOffset: int := 978307200

  /** `appleToDatetime`, as Unix seconds; the date is built from this
      value times 1000 milliseconds. */
  function AppleToUnix(appleTs: int): int {
    appleTs + AppleEpochOffset
  }

  /** `row.label || "Untitled"`: a null or empty label is replaced. */
  function LabelOf(custom: Option<string>): (r: string)
    ensures custom.Some? && custom.value != "" ==> r == custom.value
    ensures custom.None? || custom.value == "" ==> r == "Untitled"
    ensures r != ""
  {
    if custom.Some? && custom.value != "" then custom.value else "Untitled"
  }

  /** `join(VOICE_MEMOS_DIR, row.path)` */
  function MemoPath(dir: string, rel: string): (p: string)
    ensures |p| == |dir| + 1 + |rel| && p[..|dir|] == dir && p[|dir|] == '/' && p[|dir| + 1..] == rel
  {
    dir + "/" + rel
  }

  /** `getDbPath()` */
  function DbPath(dir: string): string {
    MemoPath(dir, "CloudRecordings.db")
  }

  // ---------------------------------------------------------------------------
  // Rows and memos
  // ---------------------------------------------------------------------------

  /** A row of the query; `duration` is already rounded to whole seconds. */
  datatype MemoRow = MemoRow(path: string, customLabel: Option<string>, duration: int, appleDate: int)

  /** `recordedAt` is kept as Unix seconds. */
  datatype Memo = Memo(path: string, labelText: string, duration: string, recordedAt: int, fileExists: bool)

  /** The `map` callback; `files` is the set of paths that exist. */
  function ToMemo(dir: string, files: set<string>, row: MemoRow): Memo {
    var path := MemoPath(dir, row.path);
    Memo(path, LabelOf(row.customLabel), FormatDuration(row.duration), AppleToUnix(row.appleDate), path in files)
  }

  /** `rows.map(...)` */
  function ShapeRows(dir: string, files: set<string>, rows: seq<MemoRow>): (r: seq<Memo>)
    ensures |r| == |rows|
    decreases |rows|
  {
    if |rows| == 0 then [] else ShapeRows(dir, files, rows[..|rows| - 1]) + [ToMemo(dir, files, rows[|rows| - 1])]
  }

  /** `.filter((memo) => memo.exists)` */
  function KeepExisting(memos: seq<Memo>): seq<Memo>
    decreases |memos|
  {
    if |memos| == 0 then []
    else
      var last := memos[|memos| - 1];
      KeepExisting(memos[..|memos| - 1]) + (if last.fileExists then [last] else [])
  }

  /** The kept memos are exactly the existing ones, in their original order:
      `idx` lists the positions they were taken from. */
  lemma {:induction false} KeepExistingIsSubsequence(memos: seq<Memo>) returns (idx: seq<nat>)
    ensures |idx| == |KeepExisting(memos)| && StrictlyIncreasing(idx)
    ensures forall k :: 0 <= k < |idx| ==> idx[k] < |memos| && KeepExisting(memos)[k] == memos[idx[k]]
    ensures forall i :: 0 <= i < |memos| ==> (i in idx <==> memos[i].fileExists)
    decreases |memos|
  {
    if |memos| == 0 {
      idx := [];
    } else {
      var init := memos[..|memos| - 1];
      var last := memos[|memos| - 1];
      var prev := KeepExistingIsSubsequence(init);
      assert forall i :: 0 <= i < |init| ==> init[i] == memos[i];
      if last.fileExists {
        idx := prev + [|memos| - 1];
        assert KeepExisting(memos) == KeepExisting(init) + [last];
      } else {
        idx := prev;
        assert KeepExisting(memos) == KeepExisting(init);
      }
    }
  }

  lemma {:induction false} ShapeRowsAt(dir: string, files: set<string>, rows: seq<MemoRow>, i: nat)
    requires i < |rows|
    ensures ShapeRows(dir, files, rows)[i] == ToMemo(dir, files, rows[i])
    decreases |rows|
  {
    var init := rows[..|rows| - 1];
    if i < |init| {
      ShapeRowsAt(dir, files, init, i);
      assert init[i] == rows[i];
    }
  }

  /** The memos returned are exactly the shaped rows whose audio file
      exists, in query order: `idx` lists the rows they came from. */
  lemma RowsKept(dir: string, files: set<string>, rows: seq<MemoRow>) returns (idx: seq<nat>)
    ensures var kept := KeepExisting(ShapeRows(dir, files, rows));
            && |idx| == |kept| && StrictlyIncreasing(idx)
            && (forall k :: 0 <= k < |idx| ==> idx[k] < |rows| && kept[k] == ToMemo(dir, files, rows[idx[k]]))
            && (forall i :: 0 <= i < |rows| ==> (i in idx <==> MemoPath(dir, rows[i].path) in files))
  {
    var memos := ShapeRows(dir, files, rows);
    idx := KeepExistingIsSubsequence(memos);
    forall k | 0 <= k < |idx|
      ensures memos[idx[k]] == ToMemo(dir, files, rows[idx[k]])
    {
      ShapeRowsAt(dir, files, rows, idx[k]);
    }
    forall i | 0 <= i < |rows|
      ensures memos[i].fileExists <==> MemoPath(dir, rows[i].path) in files
    {
      ShapeRowsAt(dir, files, rows, i);
    }
  }

  /** What each returned memo holds, field by field: the audio path joined onto
      the recordings directory, the custom label or "Untitled", the formatted
      duration, the recording date moved from the Core Data epoch to the Unix
      epoch, and a file that exists. */
  lemma KeptMemoFields(dir: string, files: set<string>, rows: seq<MemoRow>) returns (idx: seq<nat>)
    ensures var kept := KeepExisting(ShapeRows(dir, files, rows));
            && |idx| == |kept| && StrictlyIncreasing(idx)
            && (forall k :: 0 <= k < |idx| ==>
                  && idx[k] < |rows|
                  && kept[k].path == dir + "/" + rows[idx[k]].path
                  && kept[k].labelText == (if rows[idx[k]].customLabel.Some? && rows[idx[k]].customLabel.value != ""
                                           then rows[idx[k]].customLabel.value else "Untitled")
                  && kept[k].duration == FormatDuration(rows[idx[k]].duration)
                  && kept[k].recordedAt == rows[idx[k]].appleDate + 978307200
                  && kept[k].fileExists)
            && (forall i :: 0 <= i < |rows| ==> (i in idx <==> dir + "/" + rows[i].path in files))
  {
    idx := RowsKept(dir, files, rows);
  }

  lemma ShapeNextRow(dir: string, files: set<string>, rows: seq<MemoRow>, i: nat)
    requires i < |rows|
    ensures ShapeRows(dir, files, rows[..i + 1]) == ShapeRows(dir, files, rows[..i]) + [ToMemo(dir, files, rows[i])]
  {
    assert rows[..i + 1][..i] == rows[..i];
  }

  lemma KeepNext(memos: seq<Memo>, memo: Memo)
    ensures KeepExisting(memos + [memo]) == KeepExisting(memos) + (if memo.fileExists then [memo] else [])
  {
    assert (memos + [memo])[..|memos|] == memos;
  }

  /** `queryMemos`: fails when the database file is missing, and otherwise
      shapes every row and keeps the memos whose file exists. */
  method QueryMemos(dir: string, files: set<string>, rows: seq<MemoRow>) returns (r: Result<seq<Memo>>)
    ensures r.Failure? <==> DbPath(dir) !in files
    ensures r.Failure? ==> r.error == "Voice Memos database not found: " + DbPath(dir)
    ensures r.Success? ==> r.value == KeepExisting(ShapeRows(dir, files, rows))
  {
    var dbPath := DbPath(dir);
    if dbPath !in files {
      return Failure("Voice Memos database not found: " + dbPath);
    }
    var memos: seq<Memo> := [];
    var i := 0;
    while i < |rows|
      invariant 0 <= i <= |rows|
      invariant memos == KeepExisting(ShapeRows(dir, files, rows[..i]))
    {
      var memo := ToMemo(dir, files, rows[i]);
      ShapeNextRow(dir, files, rows, i);
      KeepNext(ShapeRows(dir, files, rows[..i]), memo);
      if memo.fileExists {
        memos := memos + [memo];
      }
      i := i + 1;
    }
    assert rows[..i] == rows;
    return Success(memos);
  }
}
