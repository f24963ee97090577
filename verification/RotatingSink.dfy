/**
 The rotating file sink: file names, rotation, and what is left of the log over whole runs. The file
 system is a map from names to contents; renames and removals succeed.
 */
module RotatingSink {
  import opened Wrappers
  import opened FormatString

  // ---------------------------------------------------------------- file names

  const FOLDER_SEP := '/'

  /** `rfind`: the last position of `c`, or -1. */
  function LastIndexOf(s: string, c: char): (i: int)
    ensures -1 <= i < |s|
    ensures i >= 0 ==> s[i] == c
    ensures forall j :: i < j < |s| ==> s[j] != c
  {
    if s == "" then -1
    else if s[|s| - 1] == c then |s| - 1
    else LastIndexOf(s[..|s| - 1], c)
  }

  function SplitByExtension(fname: string): (parts: (string, string))
    ensures parts.0 + parts.1 == fname
  {
    var extIndex := LastIndexOf(fname, '.');
    if extIndex == -1 || extIndex == 0 || extIndex == |fname| - 1 then (fname, "")
    else
      var folderIndex := LastIndexOf(fname, FOLDER_SEP);
      if folderIndex != -1 && folderIndex >= extIndex - 1 then (fname, "")
      else (fname[..extIndex], fname[extIndex..])
  }

  /** An extension starts at `e`: at the last dot of the last component, neither the first nor the last character
      of that component. */
  predicate IsExtensionAt(fname: string, e: nat) {
    0 < e < |fname| - 1 && fname[e] == '.' && '.' !in fname[e + 1..] && FOLDER_SEP !in fname[e - 1..]
  }

  /** The name is split there, and stays whole if there is no extension, as for hidden files and for dots in
      folder names. */
  lemma SplitsAtTheExtension(fname: string)
    ensures var (stem, ext) := SplitByExtension(fname);
            if exists e :: IsExtensionAt(fname, e) then IsExtensionAt(fname, |stem|) && ext == fname[|stem|..]
            else stem == fname && ext == ""
  {
    var dot, folder := LastIndexOf(fname, '.'), LastIndexOf(fname, FOLDER_SEP);
    forall e: nat | IsExtensionAt(fname, e)
      ensures e == dot && folder < e - 1
    {
      assert forall j :: e < j < |fname| ==> fname[j] == fname[e + 1..][j - e - 1];
      assert forall j :: e - 1 <= j < |fname| ==> fname[j] == fname[e - 1..][j - e + 1];
    }
    if 0 < dot < |fname| - 1 && folder < dot - 1 {
      assert IsExtensionAt(fname, dot);
    }
  }

  function CalcFilename(filename: string, index: nat): string {
    if index == 0 then filename
    else
      var (basename, ext) := SplitByExtension(filename);
      basename + "." + Decimal(index) + ext
  }

  lemma NumberedIsLonger(filename: string, index: nat)
    requires index > 0
    ensures |CalcFilename(filename, index)| > |filename|
  {
    var (basename, ext) := SplitByExtension(filename);
    assert |basename + ext| == |filename|;
  }

  /** The number stands between the stem and the extension, or at the end of a name without one. */
  lemma NumberBeforeTheExtension(fname: string, index: nat, e: nat)
    requires index > 0 && IsExtensionAt(fname, e)
    ensures CalcFilename(fname, index) == fname[..e] + "." + Decimal(index) + fname[e..]
  {
    SplitsAtTheExtension(fname);
    ExtensionIsUnique(fname, e, |SplitByExtension(fname).0|);
  }

  lemma NumberAtTheEnd(fname: string, index: nat)
    requires index > 0 && !exists e :: IsExtensionAt(fname, e)
    ensures CalcFilename(fname, index) == fname + "." + Decimal(index)
  {
    SplitsAtTheExtension(fname);
    assert fname + "." + Decimal(index) + "" == fname + "." + Decimal(index);
  }

  lemma ExtensionIsUnique(fname: string, d: nat, e: nat)
    requires IsExtensionAt(fname, d) && IsExtensionAt(fname, e)
    ensures d == e
  {
    assert forall j :: d < j < |fname| ==> fname[j] == fname[d + 1..][j - d - 1];
    assert forall j :: e < j < |fname| ==> fname[j] == fname[e + 1..][j - e - 1];
  }

  /** Different indices name different files. */
  lemma CalcFilenameInjective(filename: string, i: nat, j: nat)
    requires CalcFilename(filename, i) == CalcFilename(filename, j)
    ensures i == j
  {
    var (basename, ext) := SplitByExtension(filename);
    if i > 0 && j > 0 {
      var a, b := CalcFilename(filename, i), CalcFilename(filename, j);
      var lo := |basename| + 1;
      assert a[lo..|a| - |ext|] == Decimal(i);
      assert b[lo..|b| - |ext|] == Decimal(j);
      DecimalDenotes(i);
      DecimalDenotes(j);
    } else if i > 0 {
      NumberedIsLonger(filename, i);
    } else if j > 0 {
      NumberedIsLonger(filename, j);
    }
  }

  lemma DistinctNames(filename: string, i: nat, j: nat)
    requires i != j
    ensures CalcFilename(filename, i) != CalcFilename(filename, j)
  {
    if CalcFilename(filename, i) == CalcFilename(filename, j) {
      CalcFilenameInjective(filename, i, j);
    }
  }

  // ---------------------------------------------------------------- files as lists of pieces

  /** The files of one sink by index. Each is a list of pieces: what was in the file at first is one
      piece, and so is every message. */
  type Pieces = map<nat, seq<string>>

  function Flatten(ps: seq<string>): string {
    if ps == [] then "" else Flatten(ps[..|ps| - 1]) + ps[|ps| - 1]
  }

  lemma FlattenSnoc(ps: seq<string>, p: string)
    ensures Flatten(ps + [p]) == Flatten(ps) + p
  {
    assert (ps + [p])[..|ps|] == ps;
  }

  function File(files: Pieces, k: nat): seq<string> {
    if k in files then files[k] else []
  }

  /** Whether there is a file `k` after a rotation. */
  predicate IsFilled(files: Pieces, maxFiles: nat, k: nat) {
    k <= maxFiles && (k == 0 || k - 1 in files || (k == maxFiles && k in files))
  }

  /** The files after a rotation: each moves up by one, over the last one if there is anything to move
      there, and file 0 starts empty. */
  function Rotated(files: Pieces, maxFiles: nat): Pieces {
    map k: nat | 0 <= k <= maxFiles && IsFilled(files, maxFiles, k) ::
      if k == 0 then [] else if k - 1 in files then files[k - 1] else files[k]
  }

  /** Whether a message of this length makes the sink rotate first. */
  predicate MustRotate(files: Pieces, maxSize: nat, msg: string) {
    var size := |Flatten(File(files, 0))|;
    size + |msg| > maxSize && size > 0
  }

  /** The files after one message. */
  function Logged(files: Pieces, maxSize: nat, maxFiles: nat, msg: string): Pieces {
    if MustRotate(files, maxSize, msg) then Rotated(files, maxFiles)[0 := [msg]]
    else files[0 := File(files, 0) + [msg]]
  }

  function LoggedAll(files: Pieces, maxSize: nat, maxFiles: nat, msgs: seq<string>): Pieces {
    if msgs == [] then files
    else Logged(LoggedAll(files, maxSize, maxFiles, msgs[..|msgs| - 1]), maxSize, maxFiles, msgs[|msgs| - 1])
  }

  /** The log as one reads it: the files from index `k` down to 0, oldest first. */
  function ReadDown(files: Pieces, k: nat): seq<string> {
    File(files, k) + if k == 0 then [] else ReadDown(files, k - 1)
  }

  /** What a rotation throws away. */
  function Dropped(files: Pieces, maxFiles: nat): seq<string> {
    if maxFiles == 0 then File(files, 0)
    else if maxFiles - 1 in files then File(files, maxFiles)
    else []
  }

  lemma {:induction false} MovedUp(files: Pieces, maxFiles: nat, k: nat)
    requires k < maxFiles
    ensures ReadDown(Rotated(files, maxFiles), k) == if k == 0 then [] else ReadDown(files, k - 1)
  {
    if k > 0 {
      MovedUp(files, maxFiles, k - 1);
    }
  }

  /** A rotation loses exactly the last file, and only when another file takes its place. */
  lemma RotationDropsOneFile(files: Pieces, maxFiles: nat)
    ensures Dropped(files, maxFiles) + ReadDown(Rotated(files, maxFiles), maxFiles) == ReadDown(files, maxFiles)
  {
    if maxFiles > 0 {
      MovedUp(files, maxFiles, maxFiles - 1);
    }
  }

  lemma {:induction false} ReadAppended(files: Pieces, msg: string, k: nat)
    ensures ReadDown(files[0 := File(files, 0) + [msg]], k) == ReadDown(files, k) + [msg]
  {
    if k > 0 {
      ReadAppended(files, msg, k - 1);
    }
  }

  /** One message: it is appended to the log, and what goes at the old end is one file or nothing. */
  lemma MessageIsAppended(files: Pieces, maxSize: nat, maxFiles: nat, msg: string)
    ensures (if MustRotate(files, maxSize, msg) then Dropped(files, maxFiles) else [])
            + ReadDown(Logged(files, maxSize, maxFiles, msg), maxFiles)
            == ReadDown(files, maxFiles) + [msg]
  {
    if MustRotate(files, maxSize, msg) {
      AppendedAfterRotation(files, maxFiles, msg);
    } else {
      ReadAppended(files, msg, maxFiles);
    }
  }

  lemma AppendedAfterRotation(files: Pieces, maxFiles: nat, msg: string)
    ensures Dropped(files, maxFiles) + ReadDown(Rotated(files, maxFiles)[0 := [msg]], maxFiles)
            == ReadDown(files, maxFiles) + [msg]
  {
    var rotated := Rotated(files, maxFiles);
    RotationDropsOneFile(files, maxFiles);
    ReadAppended(rotated, msg, maxFiles);
    assert File(rotated, 0) + [msg] == [msg];
    Associative(Dropped(files, maxFiles), ReadDown(rotated, maxFiles), [msg]);
  }

  lemma Associative<T>(a: seq<T>, b: seq<T>, c: seq<T>)
    ensures a + (b + c) == a + b + c
  {}

  ghost predicate IsSuffix<T>(a: seq<T>, s: seq<T>) {
    |a| <= |s| && a == s[|s| - |a|..]
  }

  lemma DropPrefix<T>(dropped: seq<T>, a: seq<T>, b: seq<T>, s: seq<T>, x: T)
    requires dropped + b == a + [x] && IsSuffix(a, s)
    ensures IsSuffix(b, s + [x])
  {
    assert b == (dropped + b)[|dropped|..];
    assert a + [x] == (s + [x])[|s| - |a|..];
  }

  lemma OneMoreMessage(files: Pieces, maxSize: nat, maxFiles: nat, msg: string, whole: seq<string>)
    requires IsSuffix(ReadDown(files, maxFiles), whole)
    ensures IsSuffix(ReadDown(Logged(files, maxSize, maxFiles, msg), maxFiles), whole + [msg])
  {
    MessageIsAppended(files, maxSize, maxFiles, msg);
    DropPrefix(if MustRotate(files, maxSize, msg) then Dropped(files, maxFiles) else [],
               ReadDown(files, maxFiles), ReadDown(Logged(files, maxSize, maxFiles, msg), maxFiles), whole, msg);
  }

  /** After any number of messages, for any number of files and any files to begin with, reading the
      files from the oldest to the newest gives a suffix of the initial pieces followed by the messages;
      so no message is split, repeated or out of order. */
  lemma {:induction false} LogIsASuffix(files: Pieces, maxSize: nat, maxFiles: nat, msgs: seq<string>)
    ensures IsSuffix(ReadDown(LoggedAll(files, maxSize, maxFiles, msgs), maxFiles), ReadDown(files, maxFiles) + msgs)
  {
    if msgs == [] {
      assert ReadDown(files, maxFiles) + [] == ReadDown(files, maxFiles);
    } else {
      var earlier, msg := msgs[..|msgs| - 1], msgs[|msgs| - 1];
      var before := LoggedAll(files, maxSize, maxFiles, earlier);
      LogIsASuffix(files, maxSize, maxFiles, earlier);
      OneMoreMessage(before, maxSize, maxFiles, msg, ReadDown(files, maxFiles) + earlier);
      Associative(ReadDown(files, maxFiles), earlier, [msg]);
      assert earlier + [msg] == msgs;
    }
  }

  // ---------------------------------------------------------------- when the sink rotates

  /** While the base file and all messages together stay within the limit, messages are appended to the base file
      and nothing else happens. */
  lemma {:induction false} ShortRunsDoNotRotate(files: Pieces, maxSize: nat, maxFiles: nat, msgs: seq<string>)
    requires 0 in files && |Flatten(files[0])| + |Flatten(msgs)| <= maxSize
    ensures LoggedAll(files, maxSize, maxFiles, msgs) == files[0 := files[0] + msgs]
  {
    if msgs == [] {
      assert files[0] + [] == files[0] && files[0 := files[0]] == files;
    } else {
      var earlier, msg := msgs[..|msgs| - 1], msgs[|msgs| - 1];
      ShortRunsDoNotRotate(files, maxSize, maxFiles, earlier);
      FlattenConcat(files[0], earlier);
      Associative(files[0], earlier, [msg]);
      assert earlier + [msg] == msgs;
    }
  }

  // ---------------------------------------------------------------- how long pieces stay

  /** No file is missing below another one. */
  predicate GapFree(files: Pieces, maxFiles: nat) {
    forall k: nat :: 0 < k <= maxFiles && k in files ==> k - 1 in files
  }

  /** The rotations in a run. */
  function Rotations(files: Pieces, maxSize: nat, maxFiles: nat, msgs: seq<string>): nat {
    if msgs == [] then 0
    else
      var earlier := msgs[..|msgs| - 1];
      Rotations(files, maxSize, maxFiles, earlier)
      + if RotatesNext(files, maxSize, maxFiles, earlier, msgs[|msgs| - 1]) then 1 else 0
  }

  /** The message that comes after `msgs` makes the sink rotate. */
  predicate RotatesNext(files: Pieces, maxSize: nat, maxFiles: nat, msgs: seq<string>, msg: string) {
    MustRotate(LoggedAll(files, maxSize, maxFiles, msgs), maxSize, msg)
  }

  lemma {:induction false} StaysGapFree(files: Pieces, maxSize: nat, maxFiles: nat, msgs: seq<string>)
    requires GapFree(files, maxFiles)
    ensures GapFree(LoggedAll(files, maxSize, maxFiles, msgs), maxFiles)
  {
    if msgs != [] {
      StaysGapFree(files, maxSize, maxFiles, msgs[..|msgs| - 1]);
    }
  }

  /** Without gaps a rotation moves every file up by one. */
  lemma MovedUpAll(files: Pieces, maxFiles: nat, k: nat, msg: string)
    requires GapFree(files, maxFiles) && k <= maxFiles
    ensures ReadDown(Rotated(files, maxFiles)[0 := [msg]], k) == (if k == 0 then [] else ReadDown(files, k - 1)) + [msg]
  {
    var rotated := Rotated(files, maxFiles);
    ReadAppended(rotated, msg, k);
    assert File(rotated, 0) + [msg] == [msg];
    if k < maxFiles {
      MovedUp(files, maxFiles, k);
    } else if k > 0 {
      MovedUp(files, maxFiles, k - 1);
      assert File(rotated, k) == File(files, k - 1);
    }
  }

  /** The pieces in the files up to index `k` are the messages from number `j` on, and number `j` is the one that
      caused the rotation after the first `n`. */
  ghost predicate StartsAt(kept: seq<string>, files: Pieces, maxSize: nat, maxFiles: nat, msgs: seq<string>, n: int,
                           j: nat) {
    j < |msgs| && kept == msgs[j..] && Rotations(files, maxSize, maxFiles, msgs[..j]) == n &&
    RotatesNext(files, maxSize, maxFiles, msgs[..j], msgs[j])
  }

  /** What is left when `d` more files before the run could still be lost, or `-d` rotations of it are too far
      back. */
  ghost predicate IsKept(kept: seq<string>, files: Pieces, maxSize: nat, maxFiles: nat, msgs: seq<string>, d: int) {
    if d >= 0 then kept == ReadDown(files, d) + msgs
    else KeptSince(kept, files, maxSize, maxFiles, msgs, -d - 1)
  }

  ghost predicate KeptSince(kept: seq<string>, files: Pieces, maxSize: nat, maxFiles: nat, msgs: seq<string>, n: int) {
    exists j: nat :: StartsAt(kept, files, maxSize, maxFiles, msgs, n, j)
  }

  /** Exactly what a run keeps, from files without gaps: with at most `max_files` rotations all messages, and of
      the files before the run those that were moved up no further than `max_files`; with more rotations, the
      messages since the one that caused the last rotation but `max_files`. So a piece in file `k` is lost at the
      rotation after the next `max_files - k`, and not before. */
  lemma {:induction false} WhatIsKept(files: Pieces, maxSize: nat, maxFiles: nat, msgs: seq<string>, k: nat)
    requires GapFree(files, maxFiles) && k <= maxFiles
    ensures IsKept(ReadDown(LoggedAll(files, maxSize, maxFiles, msgs), k), files, maxSize, maxFiles, msgs,
                   k - Rotations(files, maxSize, maxFiles, msgs))
    decreases |msgs|
  {
    if msgs == [] {
      KeptAtFirst(files, maxSize, maxFiles, k);
    } else {
      var earlier := msgs[..|msgs| - 1];
      StaysGapFree(files, maxSize, maxFiles, earlier);
      var k' := k - if RotatesNext(files, maxSize, maxFiles, earlier, msgs[|msgs| - 1]) then 1 else 0;
      if k' >= 0 {
        WhatIsKept(files, maxSize, maxFiles, earlier, k');
        KeptStep(files, maxSize, maxFiles, msgs, k', k);
      } else {
        KeptFromLast(files, maxSize, maxFiles, msgs);
      }
    }
  }

  lemma KeptAtFirst(files: Pieces, maxSize: nat, maxFiles: nat, k: nat)
    ensures IsKept(ReadDown(files, k), files, maxSize, maxFiles, [], k)
  {
    assert ReadDown(files, k) + [] == ReadDown(files, k);
  }

  lemma KeptStep(files: Pieces, maxSize: nat, maxFiles: nat, msgs: seq<string>, k: nat, k': nat)
    requires msgs != [] && k' <= maxFiles
    requires GapFree(LoggedAll(files, maxSize, maxFiles, msgs[..|msgs| - 1]), maxFiles)
    requires k == k' - if RotatesNext(files, maxSize, maxFiles, msgs[..|msgs| - 1], msgs[|msgs| - 1]) then 1 else 0
    requires IsKept(ReadDown(LoggedAll(files, maxSize, maxFiles, msgs[..|msgs| - 1]), k), files, maxSize, maxFiles,
                    msgs[..|msgs| - 1], k - Rotations(files, maxSize, maxFiles, msgs[..|msgs| - 1]))
    ensures IsKept(ReadDown(LoggedAll(files, maxSize, maxFiles, msgs), k'), files, maxSize, maxFiles, msgs,
                   k' - Rotations(files, maxSize, maxFiles, msgs))
  {
    KeptOverStep(files, maxSize, maxFiles, msgs, LoggedAll(files, maxSize, maxFiles, msgs[..|msgs| - 1]),
                 LoggedAll(files, maxSize, maxFiles, msgs), k, k',
                 k - Rotations(files, maxSize, maxFiles, msgs[..|msgs| - 1]),
                 k' - Rotations(files, maxSize, maxFiles, msgs));
  }

  lemma KeptOverStep(files: Pieces, maxSize: nat, maxFiles: nat, msgs: seq<string>, before: Pieces, after: Pieces,
                     k: nat, k': nat, d: int, d': int)
    requires msgs != [] && k' <= maxFiles && GapFree(before, maxFiles) && d == d'
    requires after == Logged(before, maxSize, maxFiles, msgs[|msgs| - 1])
    requires k == k' - if MustRotate(before, maxSize, msgs[|msgs| - 1]) then 1 else 0
    requires IsKept(ReadDown(before, k), files, maxSize, maxFiles, msgs[..|msgs| - 1], d)
    ensures IsKept(ReadDown(after, k'), files, maxSize, maxFiles, msgs, d')
  {
    LogStep(before, maxSize, maxFiles, msgs[|msgs| - 1], k');
    KeptWithMessage(ReadDown(before, k), ReadDown(after, k'), files, maxSize, maxFiles, msgs, d, d');
  }

  /** What one message does to the files up to index `k`. */
  lemma LogStep(before: Pieces, maxSize: nat, maxFiles: nat, msg: string, k: nat)
    requires GapFree(before, maxFiles) && k <= maxFiles
    ensures ReadDown(Logged(before, maxSize, maxFiles, msg), k) ==
            (if !MustRotate(before, maxSize, msg) then ReadDown(before, k)
             else if k == 0 then [] else ReadDown(before, k - 1)) + [msg]
  {
    if MustRotate(before, maxSize, msg) {
      MovedUpAll(before, maxFiles, k, msg);
    } else {
      ReadAppended(before, msg, k);
    }
  }

  lemma KeptFromLast(files: Pieces, maxSize: nat, maxFiles: nat, msgs: seq<string>)
    requires msgs != [] && RotatesNext(files, maxSize, maxFiles, msgs[..|msgs| - 1], msgs[|msgs| - 1])
    requires GapFree(LoggedAll(files, maxSize, maxFiles, msgs[..|msgs| - 1]), maxFiles)
    ensures IsKept(ReadDown(LoggedAll(files, maxSize, maxFiles, msgs), 0), files, maxSize, maxFiles, msgs,
                   0 - Rotations(files, maxSize, maxFiles, msgs))
  {
    var j, n := |msgs| - 1, Rotations(files, maxSize, maxFiles, msgs[..|msgs| - 1]);
    LogStep(LoggedAll(files, maxSize, maxFiles, msgs[..j]), maxSize, maxFiles, msgs[j], 0);
    assert [] + [msgs[j]] == msgs[j..];
    assert StartsAt(msgs[j..], files, maxSize, maxFiles, msgs, n, j);
  }

  /** One more message behind what was kept. */
  lemma KeptWithMessage(kept: seq<string>, kept': seq<string>, files: Pieces, maxSize: nat, maxFiles: nat,
                        msgs: seq<string>, d: int, d': int)
    requires msgs != [] && kept' == kept + [msgs[|msgs| - 1]] && d' == d
    requires IsKept(kept, files, maxSize, maxFiles, msgs[..|msgs| - 1], d)
    ensures IsKept(kept', files, maxSize, maxFiles, msgs, d')
  {
    if d >= 0 {
      OneMore(kept, ReadDown(files, d), msgs);
    } else {
      KeptLonger(kept, files, maxSize, maxFiles, msgs, -d - 1);
    }
  }

  lemma OneMore<T>(kept: seq<T>, front: seq<T>, msgs: seq<T>)
    requires msgs != [] && kept == front + msgs[..|msgs| - 1]
    ensures kept + [msgs[|msgs| - 1]] == front + msgs
  {}

  lemma KeptLonger(kept: seq<string>, files: Pieces, maxSize: nat, maxFiles: nat, msgs: seq<string>, n: int)
    requires msgs != [] && KeptSince(kept, files, maxSize, maxFiles, msgs[..|msgs| - 1], n)
    ensures KeptSince(kept + [msgs[|msgs| - 1]], files, maxSize, maxFiles, msgs, n)
  {
    var earlier, msg := msgs[..|msgs| - 1], msgs[|msgs| - 1];
    var j: nat :| StartsAt(kept, files, maxSize, maxFiles, earlier, n, j);
    assert msgs[..j] == earlier[..j] && msgs[j..] == earlier[j..] + [msg];
    assert StartsAt(kept + [msg], files, maxSize, maxFiles, msgs, n, j);
  }

  // ---------------------------------------------------------------- size

  function NonemptyCount(ps: seq<string>): nat {
    if ps == [] then 0 else NonemptyCount(ps[..|ps| - 1]) + if ps[|ps| - 1] == "" then 0 else 1
  }

  /** The file is within the limit, or has no text but one piece. */
  predicate Bounded(ps: seq<string>, maxSize: nat) {
    |Flatten(ps)| <= maxSize || NonemptyCount(ps) <= 1
  }

  lemma {:induction false} EmptyText(ps: seq<string>)
    ensures NonemptyCount(ps) == 0 <==> Flatten(ps) == ""
  {
    if ps != [] {
      EmptyText(ps[..|ps| - 1]);
    }
  }

  /** A file over the limit is exactly one piece long: a message that alone is too long, or a file that
      was there before. */
  lemma {:induction false} OverLimitIsOnePiece(ps: seq<string>, maxSize: nat)
    requires Bounded(ps, maxSize)
    ensures |Flatten(ps)| <= maxSize || exists p :: p in ps && Flatten(ps) == p
  {
    if NonemptyCount(ps) <= 1 && Flatten(ps) != "" {
      EmptyText(ps);
      OnlyPiece(ps);
    }
  }

  lemma {:induction false} OnlyPiece(ps: seq<string>)
    requires NonemptyCount(ps) == 1
    ensures exists p :: p in ps && Flatten(ps) == p
  {
    var rest, last := ps[..|ps| - 1], ps[|ps| - 1];
    EmptyText(rest);
    if last == "" {
      OnlyPiece(rest);
      var p :| p in rest && Flatten(rest) == p;
      assert Flatten(ps) == p && p in ps;
    } else {
      assert Flatten(ps) == last && last in ps;
    }
  }

  ghost predicate AllBounded(files: Pieces, maxSize: nat) {
    forall k :: k in files ==> Bounded(files[k], maxSize)
  }

  lemma LoggingKeepsBounds(files: Pieces, maxSize: nat, maxFiles: nat, msg: string)
    requires AllBounded(files, maxSize)
    ensures AllBounded(Logged(files, maxSize, maxFiles, msg), maxSize)
  {
    var current := File(files, 0);
    FlattenSnoc(current, msg);
    assert (current + [msg])[..|current|] == current;
    EmptyText(current);
    assert [msg][..0] == [];
    assert NonemptyCount([msg]) <= 1;
  }

  /** No file ever grows beyond the limit by more than a single message: over any run from files of one
      piece each, every file is within the limit or is one message or initial file. */
  lemma {:induction false} SizesStayBounded(files: Pieces, maxSize: nat, maxFiles: nat, msgs: seq<string>)
    requires forall k :: k in files ==> |files[k]| <= 1
    ensures AllBounded(LoggedAll(files, maxSize, maxFiles, msgs), maxSize)
  {
    if msgs == [] {
      forall k | k in files
        ensures Bounded(files[k], maxSize)
      {
        if files[k] != [] {
          assert files[k][..0] == [];
        }
      }
    } else {
      SizesStayBounded(files, maxSize, maxFiles, msgs[..|msgs| - 1]);
      LoggingKeepsBounds(LoggedAll(files, maxSize, maxFiles, msgs[..|msgs| - 1]), maxSize, maxFiles, msgs[|msgs| - 1]);
    }
  }

  // ---------------------------------------------------------------- text

  lemma {:induction false} FlattenConcat(a: seq<string>, b: seq<string>)
    ensures Flatten(a + b) == Flatten(a) + Flatten(b)
  {
    if b == [] {
      assert a + b == a;
    } else {
      var rest, last := b[..|b| - 1], b[|b| - 1];
      FlattenConcat(a, rest);
      assert (a + b)[..|a + b| - 1] == a + rest;
      Associative(Flatten(a), Flatten(rest), last);
    }
  }

  /** The characters of the files from index `k` down to 0. */
  function TextDown(files: Pieces, k: nat): string {
    Flatten(File(files, k)) + if k == 0 then "" else TextDown(files, k - 1)
  }

  lemma {:induction false} TextIsFlattened(files: Pieces, k: nat)
    ensures TextDown(files, k) == Flatten(ReadDown(files, k))
  {
    if k > 0 {
      TextIsFlattened(files, k - 1);
      FlattenConcat(File(files, k), ReadDown(files, k - 1));
    } else {
      assert ReadDown(files, 0) == File(files, 0);
    }
  }

  /** The same in characters: the text of all files is a suffix of the initial text and all messages. */
  lemma TextIsASuffix(files: Pieces, maxSize: nat, maxFiles: nat, msgs: seq<string>)
    ensures IsSuffix(TextDown(LoggedAll(files, maxSize, maxFiles, msgs), maxFiles),
                     TextDown(files, maxFiles) + Flatten(msgs))
  {
    var after := LoggedAll(files, maxSize, maxFiles, msgs);
    var whole, kept := ReadDown(files, maxFiles) + msgs, ReadDown(after, maxFiles);
    LogIsASuffix(files, maxSize, maxFiles, msgs);
    TextIsFlattened(files, maxFiles);
    TextIsFlattened(after, maxFiles);
    FlattenConcat(ReadDown(files, maxFiles), msgs);
    var lost := whole[..|whole| - |kept|];
    FlattenConcat(lost, kept);
    assert lost + kept == whole;
  }

  // ---------------------------------------------------------------- the sink

  type FileSystem = map<string, string>

  /** `remove(target)` followed by `rename(src, target)`. */
  function Moved(fs: FileSystem, src: string, target: string): FileSystem
    requires src in fs
  {
    (fs - {src, target})[target := fs[src]]
  }

  /** File `k` of the sink holds the pieces `files` says, and exists exactly if it is there. */
  ghost predicate Holds(fs: FileSystem, name: string, files: Pieces, k: nat) {
    (name in fs <==> k in files) && (name in fs ==> fs[name] == Flatten(File(files, k)))
  }

  /** The file system shows `files`. */
  ghost predicate Shows(fs: FileSystem, base: string, files: Pieces, maxFiles: nat) {
    (forall k: nat :: k in files ==> k <= maxFiles) &&
    forall k: nat | k <= maxFiles :: Holds(fs, CalcFilename(base, k), files, k)
  }

  ghost predicate IsOurs(name: string, base: string, maxFiles: nat) {
    exists k: nat | k <= maxFiles :: name == CalcFilename(base, k)
  }

  ghost predicate OthersUntouched(before: FileSystem, after: FileSystem, base: string, maxFiles: nat) {
    forall name: string :: !IsOurs(name, base, maxFiles) ==>
      (name in before <==> name in after) && (name in before ==> before[name] == after[name])
  }

  /** File `k` just before file `i - 1` moves: the files above `i` are the new ones, those below are the
      old ones, and `i` is free unless nothing has moved. */
  ghost predicate InRotationAt(fs: FileSystem, name: string, files: Pieces, maxFiles: nat, i: nat, k: nat) {
    if i < k then Holds(fs, name, Rotated(files, maxFiles), k)
    else if i == k && i < maxFiles then name !in fs
    else Holds(fs, name, files, k)
  }

  ghost predicate InRotation(fs: FileSystem, base: string, files: Pieces, maxFiles: nat, i: nat) {
    i <= maxFiles &&
    forall k: nat | k <= maxFiles :: InRotationAt(fs, CalcFilename(base, k), files, maxFiles, i, k)
  }

  function AfterOneMove(fs: FileSystem, src: string, target: string): FileSystem {
    if src in fs then Moved(fs, src, target) else fs
  }

  lemma MoveOne(fs: FileSystem, base: string, files: Pieces, maxFiles: nat, i: nat)
    requires i > 0 && InRotation(fs, base, files, maxFiles, i)
    ensures InRotation(AfterOneMove(fs, CalcFilename(base, i - 1), CalcFilename(base, i)), base, files, maxFiles, i - 1)
  {
    var src, target := CalcFilename(base, i - 1), CalcFilename(base, i);
    assert InRotationAt(fs, src, files, maxFiles, i, i - 1);
    assert InRotationAt(fs, target, files, maxFiles, i, i);
    DistinctNames(base, i - 1, i);
    forall k: nat | k <= maxFiles
      ensures InRotationAt(AfterOneMove(fs, src, target), CalcFilename(base, k), files, maxFiles, i - 1, k)
    {
      assert InRotationAt(fs, CalcFilename(base, k), files, maxFiles, i, k);
      if k == i {
        MovedIntoPlace(fs, src, target, files, maxFiles, i);
      } else if k != i - 1 {
        DistinctNames(base, k, i);
        DistinctNames(base, k, i - 1);
      }
    }
  }

  lemma MovedIntoPlace(fs: FileSystem, src: string, target: string, files: Pieces, maxFiles: nat, i: nat)
    requires 0 < i <= maxFiles && src != target
    requires InRotationAt(fs, src, files, maxFiles, i, i - 1) && InRotationAt(fs, target, files, maxFiles, i, i)
    ensures Holds(AfterOneMove(fs, src, target), target, Rotated(files, maxFiles), i)
  {}

  lemma FinishRotation(fs: FileSystem, base: string, files: Pieces, maxFiles: nat)
    requires InRotation(fs, base, files, maxFiles, 0)
    ensures Shows(fs[base := ""], base, Rotated(files, maxFiles), maxFiles)
  {
    var fs' := fs[base := ""];
    forall k: nat | k <= maxFiles
      ensures Holds(fs', CalcFilename(base, k), Rotated(files, maxFiles), k)
    {
      assert InRotationAt(fs, CalcFilename(base, k), files, maxFiles, 0, k);
      if k > 0 {
        NumberedIsLonger(base, k);
        assert CalcFilename(base, k) != base;
      }
    }
  }

  lemma AppendToFileZero(fs: FileSystem, base: string, files: Pieces, maxFiles: nat, msg: string)
    requires Shows(fs, base, files, maxFiles) && 0 in files
    ensures base in fs && Shows(fs[base := fs[base] + msg], base, files[0 := File(files, 0) + [msg]], maxFiles)
  {
    assert Holds(fs, CalcFilename(base, 0), files, 0);
    var fs', files' := fs[base := fs[base] + msg], files[0 := File(files, 0) + [msg]];
    FlattenSnoc(File(files, 0), msg);
    forall k: nat | k <= maxFiles
      ensures Holds(fs', CalcFilename(base, k), files', k)
    {
      assert Holds(fs, CalcFilename(base, k), files, k);
      if k > 0 {
        NumberedIsLonger(base, k);
        assert CalcFilename(base, k) != base;
      }
    }
  }

  lemma BaseIsOurs(base: string, maxFiles: nat)
    ensures IsOurs(base, base, maxFiles)
  {
    assert base == CalcFilename(base, 0);
  }

  /** Every file that there was has the next number now, except for the last one. */
  ghost predicate AllMovedUp(before: FileSystem, after: FileSystem, base: string, maxFiles: nat) {
    forall k: nat | k < maxFiles && CalcFilename(base, k) in before ::
      var next := CalcFilename(base, k + 1);
      next in after && after[next] == before[CalcFilename(base, k)]
  }

  lemma FilesMoveUp(before: FileSystem, base: string, files: Pieces, maxFiles: nat)
    requires Shows(before, base, files, maxFiles)
    ensures forall after :: Shows(after, base, Rotated(files, maxFiles), maxFiles) ==>
              AllMovedUp(before, after, base, maxFiles)
  {
    forall after | Shows(after, base, Rotated(files, maxFiles), maxFiles)
      ensures AllMovedUp(before, after, base, maxFiles)
    {
      forall k: nat | k < maxFiles && CalcFilename(base, k) in before
        ensures var next := CalcFilename(base, k + 1);
                next in after && after[next] == before[CalcFilename(base, k)]
      {
        assert Holds(before, CalcFilename(base, k), files, k);
        assert Holds(after, CalcFilename(base, k + 1), Rotated(files, maxFiles), k + 1);
      }
    }
  }

  /** The base file does not move when another text is written to it. */
  lemma WritingKeepsTheMoved(before: FileSystem, after: FileSystem, base: string, maxFiles: nat, text: string)
    requires AllMovedUp(before, after, base, maxFiles)
    ensures AllMovedUp(before, after[base := text], base, maxFiles)
  {
    var after' := after[base := text];
    forall k: nat | k < maxFiles && CalcFilename(base, k) in before
      ensures var next := CalcFilename(base, k + 1);
              next in after' && after'[next] == before[CalcFilename(base, k)]
    {
      NumberedIsLonger(base, k + 1);
      assert CalcFilename(base, k + 1) != base;
    }
  }

  /** What the sink finds when it opens its base file for appending. */
  ghost function Found(fs: FileSystem, base: string, maxFiles: nat): Pieces {
    map k: nat | 0 <= k <= maxFiles && (k == 0 || CalcFilename(base, k) in fs) ::
      if CalcFilename(base, k) in fs then [fs[CalcFilename(base, k)]] else []
  }

  lemma FoundIsShown(fs: FileSystem, base: string, maxFiles: nat)
    ensures Shows(if base in fs then fs else fs[base := ""], base, Found(fs, base, maxFiles), maxFiles)
  {
    var fs', files := if base in fs then fs else fs[base := ""], Found(fs, base, maxFiles);
    forall k: nat | k <= maxFiles
      ensures Holds(fs', CalcFilename(base, k), files, k)
    {
      var name := CalcFilename(base, k);
      if name in fs {
        assert [fs[name]][..0] == [];
      }
      if k > 0 {
        NumberedIsLonger(base, k);
        assert name != base;
      }
    }
  }

  class RotatingFileSink {
    const baseFilename: string
    const maxSize: nat
    const maxFiles: nat
    var fs: FileSystem
    var currentSize: nat
    /** What is in the sink's files, piece by piece. */
    ghost var pieces: Pieces

    ghost predicate Valid()
      reads this
    {
      Shows(fs, baseFilename, pieces, maxFiles) && 0 in pieces && currentSize == |Flatten(pieces[0])|
    }

    constructor Open(baseFilename: string, maxSize: nat, maxFiles: nat, rotateOnOpen: bool, fs: FileSystem)
      ensures this.baseFilename == baseFilename && this.maxSize == maxSize && this.maxFiles == maxFiles
      ensures Valid() && OthersUntouched(fs, this.fs, baseFilename, maxFiles)
      ensures var found := Found(fs, baseFilename, maxFiles);
              pieces == if rotateOnOpen && Flatten(found[0]) != "" then Rotated(found, maxFiles) else found
    {
      this.baseFilename, this.maxSize, this.maxFiles := baseFilename, maxSize, maxFiles;
      var onDisk := if baseFilename in fs then fs else fs[baseFilename := ""];
      this.fs, currentSize, pieces := onDisk, |onDisk[baseFilename]|, Found(fs, baseFilename, maxFiles);
      new;
      FoundIsShown(fs, baseFilename, maxFiles);
      BaseIsOurs(baseFilename, maxFiles);
      assert Holds(onDisk, CalcFilename(baseFilename, 0), pieces, 0);
      if rotateOnOpen && currentSize > 0 {
        Rotate();
        currentSize := 0;
      }
    }

    /** The constructor's argument checks. */
    static method Create(baseFilename: string, maxSize: nat, maxFiles: nat, rotateOnOpen: bool, fs: FileSystem)
      returns (sink: Option<RotatingFileSink>)
      ensures sink.None? <==> maxSize == 0 || maxFiles > 200000 || baseFilename == ""
      ensures sink.Some? ==> fresh(sink.value) && sink.value.Valid()
      ensures sink.Some? ==> sink.value.baseFilename == baseFilename && sink.value.maxSize == maxSize
                             && sink.value.maxFiles == maxFiles
      ensures sink.Some? ==> OthersUntouched(fs, sink.value.fs, baseFilename, maxFiles)
      ensures sink.Some? ==>
                var found := Found(fs, baseFilename, maxFiles);
                sink.value.pieces ==
                if rotateOnOpen && Flatten(found[0]) != "" then Rotated(found, maxFiles) else found
    {
      if maxSize == 0 || maxFiles > 200000 || baseFilename == "" {
        return None;
      }
      var s := new RotatingFileSink.Open(baseFilename, maxSize, maxFiles, rotateOnOpen, fs);
      sink := Some(s);
    }

    method RenameFile(src: string, target: string)
      requires src in fs && src != target
      modifies this`fs
      ensures fs == Moved(old(fs), src, target)
    {
      fs := fs - {target};
      fs := (fs - {src})[target := fs[src]];
    }

    method Rotate()
      requires Shows(fs, baseFilename, pieces, maxFiles)
      modifies this`fs, this`pieces
      ensures pieces == Rotated(old(pieces), maxFiles)
      ensures Shows(fs, baseFilename, pieces, maxFiles) && 0 in pieces && pieces[0] == []
      ensures OthersUntouched(old(fs), fs, baseFilename, maxFiles)
      ensures baseFilename in fs && fs[baseFilename] == ""
      ensures AllMovedUp(old(fs), fs, baseFilename, maxFiles)
    {
      FilesMoveUp(fs, baseFilename, pieces, maxFiles);
      var i := maxFiles;
      while i > 0
        invariant 0 <= i <= maxFiles && pieces == old(pieces)
        invariant InRotation(fs, baseFilename, pieces, maxFiles, i)
        invariant OthersUntouched(old(fs), fs, baseFilename, maxFiles)
      {
        MoveOne(fs, baseFilename, pieces, maxFiles, i);
        var src := CalcFilename(baseFilename, i - 1);
        if src in fs {
          var target := CalcFilename(baseFilename, i);
          DistinctNames(baseFilename, i - 1, i);
          assert IsOurs(src, baseFilename, maxFiles) && IsOurs(target, baseFilename, maxFiles);
          RenameFile(src, target);
        }
        i := i - 1;
      }
      FinishRotation(fs, baseFilename, pieces, maxFiles);
      BaseIsOurs(baseFilename, maxFiles);
      fs := fs[baseFilename := ""];
      pieces := Rotated(pieces, maxFiles);
    }

    method Write(formatted: string)
      requires Shows(fs, baseFilename, pieces, maxFiles) && 0 in pieces
      modifies this`fs, this`pieces
      ensures pieces == old(pieces)[0 := File(old(pieces), 0) + [formatted]]
      ensures |Flatten(pieces[0])| == |Flatten(old(pieces)[0])| + |formatted|
      ensures Shows(fs, baseFilename, pieces, maxFiles)
      ensures OthersUntouched(old(fs), fs, baseFilename, maxFiles)
      ensures baseFilename in old(fs) && fs == old(fs)[baseFilename := old(fs)[baseFilename] + formatted]
    {
      AppendToFileZero(fs, baseFilename, pieces, maxFiles, formatted);
      BaseIsOurs(baseFilename, maxFiles);
      FlattenSnoc(pieces[0], formatted);
      fs := fs[baseFilename := fs[baseFilename] + formatted];
      pieces := pieces[0 := File(pieces, 0) + [formatted]];
    }

    method SinkIt(formatted: string)
      requires Valid()
      modifies this
      ensures Valid() && OthersUntouched(old(fs), fs, baseFilename, maxFiles)
      ensures pieces == Logged(old(pieces), maxSize, maxFiles, formatted)
      ensures baseFilename in old(fs) && baseFilename in fs
      ensures |old(fs)[baseFilename]| + |formatted| <= maxSize || old(fs)[baseFilename] == "" ==>
                fs == old(fs)[baseFilename := old(fs)[baseFilename] + formatted]
      ensures |old(fs)[baseFilename]| + |formatted| > maxSize && old(fs)[baseFilename] != "" ==>
                fs[baseFilename] == formatted && AllMovedUp(old(fs), fs, baseFilename, maxFiles)
    {
      assert Holds(fs, CalcFilename(baseFilename, 0), pieces, 0);
      var newSize := currentSize + |formatted|;
      if newSize > maxSize && |fs[baseFilename]| > 0 {
        Rotate();
        newSize := |formatted|;
        assert File(pieces, 0) + [formatted] == [formatted];
        assert "" + formatted == formatted;
        WritingKeepsTheMoved(old(fs), fs, baseFilename, maxFiles, formatted);
      }
      Write(formatted);
      currentSize := newSize;
    }
  }
}
