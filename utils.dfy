/** lib/utils.js: `arrify`, `unique`, `shorten`, `try` and `replaceFile`. */
module Utils {
  import opened Js

  // ---------------------------------------------------------------- arrify

  /** `arrify(x)`: an array is returned as it is, `undefined` becomes the
      empty list, any other value a one-element list. */
  function Arrify(x: Value): (r: seq<Value>)
    ensures x.Arr? ==> r == x.items
    ensures x.Undefined? ==> r == []
    ensures !x.Arr? && !x.Undefined? ==> r == [x]
  {
    match x
    case Arr(items) => items
    case Undefined => []
    case _ => [x]
  }

  /** Wrapping the result of `arrify` in an array and applying it again
      changes nothing. */
  lemma ArrifyIdempotent(x: Value)
    ensures Arrify(Arr(Arrify(x))) == Arrify(x)
  {
  }

  // ---------------------------------------------------------------- unique

  predicate NoDuplicates<T(==)>(s: seq<T>) {
    forall i, j :: 0 <= i < j < |s| ==> s[i] != s[j]
  }

  /** Position of the first occurrence of `x` in `s`. */
  function FirstIndex<T(==)>(s: seq<T>, x: T): (k: nat)
    requires x in s
    ensures k < |s| && s[k] == x
    ensures forall j :: 0 <= j < k ==> s[j] != x
  {
    if s[0] == x then 0 else 1 + FirstIndex(s[1..], x)
  }

  lemma FirstIndexOfPrefix<T>(p: seq<T>, x: T, y: T)
    requires y in p
    ensures FirstIndex(p + [x], y) == FirstIndex(p, y)
  {
    var k := FirstIndex(p + [x], y);
    var m := FirstIndex(p, y);
    assert (p + [x])[m] == y;
  }

  /** `Array.from(new Set(arr))`: the elements of `arr`, each once, in the
      order in which they first occur. */
  function Unique<T(==)>(s: seq<T>): (r: seq<T>)
    ensures NoDuplicates(r)
    ensures forall i :: 0 <= i < |r| ==> r[i] in s
    ensures forall i :: 0 <= i < |s| ==> s[i] in r
    ensures |r| <= |s|
  {
    if s == [] then []
    else
      var u := Unique(s[..|s| - 1]);
      var x := s[|s| - 1];
      assert s == s[..|s| - 1] + [x];
      if x in u then u else u + [x]
  }

  /** The elements of `Unique(s)` are in the order of their first
      occurrence in `s`. */
  lemma {:induction false} UniqueKeepsFirstOccurrenceOrder<T>(s: seq<T>, i: nat, j: nat)
    requires i < j < |Unique(s)|
    ensures FirstIndex(s, Unique(s)[i]) < FirstIndex(s, Unique(s)[j])
  {
    var p := s[..|s| - 1];
    var x := s[|s| - 1];
    assert s == p + [x];
    var u := Unique(p);
    var a, b := Unique(s)[i], Unique(s)[j];
    assert a in p by { assert a in Unique(s); assert a in s; if a == x { assert x !in u ==> j < |u|; } }
    if x in u {
      UniqueKeepsFirstOccurrenceOrder(p, i, j);
      FirstIndexOfPrefix(p, x, a);
      FirstIndexOfPrefix(p, x, b);
    } else if j < |u| {
      UniqueKeepsFirstOccurrenceOrder(p, i, j);
      FirstIndexOfPrefix(p, x, a);
      FirstIndexOfPrefix(p, x, b);
    } else {
      assert b == x && x !in p;
      FirstIndexOfPrefix(p, x, a);
      assert FirstIndex(s, b) == |p|;
    }
  }

  /** On a list without duplicates `unique` is the identity. */
  lemma {:induction false} UniqueOfDistinct<T>(s: seq<T>)
    requires NoDuplicates(s)
    ensures Unique(s) == s
  {
    if s != [] {
      var p := s[..|s| - 1];
      assert NoDuplicates(p);
      UniqueOfDistinct(p);
      assert s[|s| - 1] !in p;
      assert s == p + [s[|s| - 1]];
    }
  }

  /** Applying `unique` twice is the same as applying it once. */
  lemma UniqueIdempotent<T>(s: seq<T>)
    ensures Unique(Unique(s)) == Unique(s)
  {
    UniqueOfDistinct(Unique(s));
  }

  // --------------------------------------------------------------- shorten

  /** The characters removed by `/[ \[\]\(\),._-]+/g`. */
  const StripChars: set<char> := {' ', '[', ']', '(', ')', ',', '.', '_', '-'}

  /** The marker literal placed between the two kept ends. The source text
      holds these three code points (U+00E2 U+20AC U+00A6). */
  const Marker: string := "\U{E2}\U{20AC}\U{A6}"

  /** The default `length` of `shorten`. */
  const DefaultLength: nat := 15

  /** `string.replace(/[ \[\]\(\),._-]+/g, '')`. */
  function Strip(s: string): (r: string)
    ensures forall i :: 0 <= i < |r| ==> r[i] !in StripChars
    ensures forall c :: c !in StripChars ==> multiset(r)[c] == multiset(s)[c]
    ensures |r| <= |s|
  {
    if s == [] then ""
    else
      var p := s[..|s| - 1];
      var c := s[|s| - 1];
      assert s == p + [c];
      if c in StripChars then Strip(p) else Strip(p) + [c]
  }

  /** Stripping distributes over concatenation: it removes those
      characters and keeps every other one, in order. */
  lemma {:induction false} StripConcat(a: string, b: string)
    ensures Strip(a + b) == Strip(a) + Strip(b)
  {
    if b == [] {
      assert a + b == a;
    } else {
      var q, c := b[..|b| - 1], b[|b| - 1];
      assert b == q + [c];
      StripConcat(a, q);
      StripConcatStep(a, q, c);
    }
  }

  lemma StripConcatStep(a: string, q: string, c: char)
    requires Strip(a + q) == Strip(a) + Strip(q)
    ensures Strip(a + (q + [c])) == Strip(a) + Strip(q + [c])
  {
    ConcatAssoc(a, q, [c]);
    StripAppend(a + q, c);
    StripAppend(q, c);
    ConcatAssoc(Strip(a), Strip(q), [c]);
  }


  /** A string without any of those characters is left as it is. */
  lemma {:induction false} StripClean(s: string)
    requires forall i :: 0 <= i < |s| ==> s[i] !in StripChars
    ensures Strip(s) == s
  {
    if s != [] {
      var p, c := s[..|s| - 1], s[|s| - 1];
      assert s == p + [c] && c !in StripChars;
      assert forall i :: 0 <= i < |p| ==> p[i] == s[i];
      StripClean(p);
      StripAppend(p, c);
      assert Strip(s) == p + [c];
    }
  }

  /** A character added at the end is dropped or kept on its own. */
  lemma StripAppend(p: string, c: char)
    ensures Strip(p + [c]) == if c in StripChars then Strip(p) else Strip(p) + [c]
  {
    assert (p + [c])[..|p + [c]| - 1] == p;
  }

  /** Stripping twice is stripping once. */
  lemma StripIdempotent(s: string)
    ensures Strip(Strip(s)) == Strip(s)
  {
    StripClean(Strip(s));
  }

  /** `string.substr(-k)` for k >= 0 on a string at least k long: the last
      k characters, and the whole string when k is 0 (`-0` is 0). */
  function Tail(s: string, k: nat): (r: string)
    requires k <= |s|
    ensures k == 0 ==> r == s
    ensures k > 0 ==> |r| == k && s == s[..|s| - k] + r
  {
    if k == 0 then s else s[|s| - k..]
  }

  /** How much of the front `shorten` keeps: 90% of the length, rounded
      down. */
  function HeadLength(length: nat): (n: nat)
    ensures n <= length && n + TailLength(length) <= length
  {
    9 * length / 10
  }

  /** How much of the end `shorten` keeps: 10% of the length, rounded down. */
  function TailLength(length: nat): (n: nat)
    ensures n <= length && (length >= 10 <==> n > 0)
  {
    length / 10
  }

  /** `shorten(string, length)`. */
  function Shorten(s: string, length: nat): (r: string)
    ensures |s| < length ==> r == s
    ensures |s| >= length && |Strip(s)| < length ==> r == Strip(s)
    ensures |s| >= length && |Strip(s)| >= length ==>
      var t, h, k := Strip(s), HeadLength(length), TailLength(length);
      && |r| >= length
      && |r| >= h + |Marker|
      && r[..h] == t[..h]
      && r[h..h + |Marker|] == Marker
      && (length >= 10 ==> |r| == h + |Marker| + k && r[|r| - k..] == t[|t| - k..])
      && (length < 10 ==> r[h + |Marker|..] == t)
  {
    if |s| < length then s
    else
      var t := Strip(s);
      if |t| < length then t
      else
        assert |Marker| == 3;
        t[..HeadLength(length)] + Marker + Tail(t, TailLength(length))
  }

  /** From a length of 10 on, an abbreviation is at most `|Marker|`
      characters longer than the requested length; a result shorter than
      the length is the input itself or its stripped form. */
  lemma ShortenBounds(s: string, length: nat)
    ensures length >= 10 ==> |Shorten(s, length)| <= length + |Marker|
    ensures |Shorten(s, length)| < length ==> Shorten(s, length) == s || Shorten(s, length) == Strip(s)
  {
  }

  /** With the default length of 15, a long name keeps its first 13
      stripped characters and its last one around the marker. */
  lemma ShortenDefault(s: string)
    requires |Strip(s)| >= DefaultLength
    ensures var t := Strip(s);
      Shorten(s, DefaultLength) == t[..13] + Marker + t[|t| - 1..]
  {
    var t := Strip(s);
    var r := Shorten(s, DefaultLength);
    assert |r| == 13 + |Marker| + 1;
    assert r == r[..13] + r[13..13 + |Marker|] + r[|r| - 1..];
  }

  // ------------------------------------------------------------------- try

  /** How `_.try(...fns)` ends, given the outcome each function would have
      if called (synchronous functions only):
      - `Returned(value, calls)`: function number `calls` (counting from 1)
        returned `value`; the functions after it were not called;
      - `Threw(error, earlier)`: every function threw; the last error is
        rethrown with `error.errors` set to the earlier ones;
      - `NoErrorToRethrow`: there were no functions, so `errors.pop()` is
        `undefined` and setting its `errors` field throws a TypeError. */
  datatype TryOutcome<T, E> =
    | Returned(value: T, calls: nat)
    | Threw(error: E, earlier: seq<E>)
    | NoErrorToRethrow

  function Errors<T, E>(outcomes: seq<Result<T, E>>): (r: seq<E>)
    requires forall j :: 0 <= j < |outcomes| ==> outcomes[j].Err?
    ensures |r| == |outcomes|
    ensures forall j :: 0 <= j < |outcomes| ==> r[j] == outcomes[j].error
  {
    if outcomes == [] then [] else [outcomes[0].error] + Errors(outcomes[1..])
  }

  lemma ErrorsFrom<T, E>(outcomes: seq<Result<T, E>>, i: nat)
    requires i < |outcomes| && forall j :: i <= j < |outcomes| ==> outcomes[j].Err?
    ensures Errors(outcomes[i..]) == [outcomes[i].error] + Errors(outcomes[i + 1..])
  {
    assert outcomes[i..][0] == outcomes[i] && outcomes[i..][1..] == outcomes[i + 1..];
  }

  /** `recurse(i, errors)`. */
  function TryFrom<T, E>(outcomes: seq<Result<T, E>>, i: nat, errors: seq<E>): (r: TryOutcome<T, E>)
    requires i <= |outcomes|
    ensures r.Returned? ==>
      && i < r.calls <= |outcomes|
      && outcomes[r.calls - 1] == Ok(r.value)
      && (forall j :: i <= j < r.calls - 1 ==> outcomes[j].Err?)
    ensures r.Threw? ==>
      && (forall j :: i <= j < |outcomes| ==> outcomes[j].Err?)
      && r.earlier + [r.error] == errors + Errors(outcomes[i..])
    ensures r.NoErrorToRethrow? ==> errors == [] && (forall j :: i <= j < |outcomes| ==> outcomes[j].Err?) && i == |outcomes|
    ensures !r.Returned? <==> (forall j :: i <= j < |outcomes| ==> outcomes[j].Err?)
    decreases |outcomes| - i
  {
    if i == |outcomes| then
      if errors == [] then NoErrorToRethrow
      else Threw(errors[|errors| - 1], errors[..|errors| - 1])
    else
      match outcomes[i]
      case Ok(v) => Returned(v, i + 1)
      case Err(e) =>
        var r := TryFrom(outcomes, i + 1, errors + [e]);
        if r.Threw? then
          ErrorsFrom(outcomes, i);
          ConcatAssoc(errors, [e], Errors(outcomes[i + 1..]));
          r
        else r
  }

  /** `_.try(...fns)`: the value of the first function that returns;
      otherwise the last error, carrying the earlier ones in call order. */
  function Try<T, E>(outcomes: seq<Result<T, E>>): (r: TryOutcome<T, E>)
    ensures r.Returned? ==>
      && 0 < r.calls <= |outcomes|
      && outcomes[r.calls - 1] == Ok(r.value)
      && (forall j :: 0 <= j < r.calls - 1 ==> outcomes[j].Err?)
    ensures !r.Returned? <==> (forall j :: 0 <= j < |outcomes| ==> outcomes[j].Err?)
    ensures r.Threw? ==> r.earlier + [r.error] == Errors(outcomes)
    ensures r.NoErrorToRethrow? <==> outcomes == []
  {
    assert outcomes[0..] == outcomes;
    TryFrom(outcomes, 0, [])
  }

  /** Functions after the one that returned are never called: whatever
      they would do does not change the outcome. */
  lemma {:induction false} TryIgnoresLaterFunctions<T, E>(outcomes: seq<Result<T, E>>, later: seq<Result<T, E>>)
    requires Try(outcomes).Returned?
    ensures Try(outcomes + later) == Try(outcomes)
  {
    var k := Try(outcomes).calls;
    var all := outcomes + later;
    assert forall j :: 0 <= j < k - 1 ==> all[j] == outcomes[j];
    TryFromPrefix(outcomes, all, 0, [], k);
  }

  lemma {:induction false} TryFromPrefix<T, E>(a: seq<Result<T, E>>, b: seq<Result<T, E>>, i: nat, errors: seq<E>, k: nat)
    requires i < k <= |a| <= |b|
    requires forall j :: i <= j < k ==> a[j] == b[j]
    requires a[k - 1].Ok? && forall j :: i <= j < k - 1 ==> a[j].Err?
    ensures TryFrom(b, i, errors) == TryFrom(a, i, errors)
    decreases k - i
  {
    if i < k - 1 {
      TryFromPrefix(a, b, i + 1, errors + [a[i].error], k);
    }
  }

  // ----------------------------------------------------------- replaceFile

  type Path = string

  /** File contents. */
  type Bytes = seq<bv8>

  /** Why a filesystem step failed. `External` stands for every reason the
      operating system may give that the path layout does not explain. */
  datatype FsError =
    | NoSuchFile(path: Path)
    | SamePath(path: Path)
    | DestinationExists(path: Path)
    | External(path: Path)

  datatype Outcome = Done | Failed(error: FsError)

  /** `fs.rename(from, to)`: replaces `to` when it exists. */
  function RenameStep(files: map<Path, Bytes>, from: Path, to: Path, fault: bool): (r: (Outcome, map<Path, Bytes>))
    ensures r.0.Failed? ==> r.1 == files
    ensures r.0.Done? <==> from in files && !fault
    ensures r.0.Done? ==> r.1 == (files - {from})[to := files[from]]
  {
    if from !in files then (Failed(NoSuchFile(from)), files)
    else if fault then (Failed(External(from)), files)
    else (Done, (files - {from})[to := files[from]])
  }

  /** `fs.move(src, dest)` of fs-extra, without `overwrite`: it checks the
      source exists, differs from the destination, and that the destination
      does not exist. */
  function MoveStep(files: map<Path, Bytes>, src: Path, dest: Path, fault: bool): (r: (Outcome, map<Path, Bytes>))
    ensures r.0.Failed? ==> r.1 == files
    ensures r.0.Done? <==> src in files && src != dest && dest !in files && !fault
    ensures r.0.Done? ==> r.1 == (files - {src})[dest := files[src]]
  {
    if src !in files then (Failed(NoSuchFile(src)), files)
    else if src == dest then (Failed(SamePath(src)), files)
    else if dest in files then (Failed(DestinationExists(dest)), files)
    else if fault then (Failed(External(src)), files)
    else (Done, (files - {src})[dest := files[src]])
  }

  function BackupPath(p: Path): Path { p + ".bkp" }

  /** Which steps of `replaceFile` the operating system makes fail. */
  datatype Faults = Faults(backup: bool, move: bool, restore: bool)

  /** What `replaceFile(toReplace, replaceWith)` does to the filesystem. */
  function Replace(files: map<Path, Bytes>, toReplace: Path, replaceWith: Path, faults: Faults): (r: (Outcome, map<Path, Bytes>))
    ensures forall p :: p != toReplace && p != BackupPath(toReplace) && p != replaceWith ==>
      (p in r.1 <==> p in files) && (p in files ==> r.1[p] == files[p])
    ensures r.0.Done? ==> BackupPath(toReplace) !in r.1
  {
    var bkp := BackupPath(toReplace);
    var (r1, f1) := RenameStep(files, toReplace, bkp, faults.backup);
    if r1.Failed? then (r1, f1)
    else
      var (r2, f2) := MoveStep(f1, replaceWith, toReplace, faults.move);
      if r2.Failed? then
        var (r3, f3) := RenameStep(f2, bkp, toReplace, faults.restore);
        if r3.Failed? then (r3, f3) else (r2, f3)
      else (Done, f2 - {bkp})
  }

  lemma BackupDiffers(p: Path)
    ensures BackupPath(p) != p
  {
    assert |BackupPath(p)| == |p| + 4;
  }

  /** On success, `toReplace` holds what `replaceWith` held, neither
      `replaceWith` nor the backup exists, and every other file is as it
      was. */
  lemma ReplaceSuccess(files: map<Path, Bytes>, toReplace: Path, replaceWith: Path, faults: Faults)
    requires replaceWith != BackupPath(toReplace)
    requires Replace(files, toReplace, replaceWith, faults).0.Done?
    ensures var after := Replace(files, toReplace, replaceWith, faults).1;
      && replaceWith in files
      && toReplace in after && after[toReplace] == files[replaceWith]
      && replaceWith !in after
      && BackupPath(toReplace) !in after
      && (forall p :: p in files && p != toReplace && p != replaceWith && p != BackupPath(toReplace) ==> p in after && after[p] == files[p])
      && (forall p :: p in after ==> p == toReplace || p in files)
  {
    BackupDiffers(toReplace);
  }

  /** The replacement succeeds exactly when `toReplace` can be backed up
      and `replaceWith` then moved onto it. */
  lemma ReplaceSucceedsIff(files: map<Path, Bytes>, toReplace: Path, replaceWith: Path, faults: Faults)
    ensures Replace(files, toReplace, replaceWith, faults).0.Done? <==>
      && toReplace in files && !faults.backup && !faults.move
      && replaceWith != toReplace
      && (replaceWith in files || replaceWith == BackupPath(toReplace))
  {
    BackupDiffers(toReplace);
  }

  /** When the first rename fails nothing changes and its error is thrown. */
  lemma ReplaceBackupFails(files: map<Path, Bytes>, toReplace: Path, replaceWith: Path, faults: Faults)
    requires toReplace !in files || faults.backup
    ensures Replace(files, toReplace, replaceWith, faults) ==
      (Failed(if toReplace !in files then NoSuchFile(toReplace) else External(toReplace)), files)
  {
  }

  /** When the move fails and the backup is renamed back, the original is
      in place again, the move's error is rethrown, and the only file lost
      is one that already sat at the backup path. */
  lemma ReplaceRollback(files: map<Path, Bytes>, toReplace: Path, replaceWith: Path, faults: Faults)
    requires toReplace in files && !faults.backup && !faults.restore
    requires !Replace(files, toReplace, replaceWith, faults).0.Done?
    ensures var (r, after) := Replace(files, toReplace, replaceWith, faults);
      var f1 := (files - {toReplace})[BackupPath(toReplace) := files[toReplace]];
      && r == MoveStep(f1, replaceWith, toReplace, faults.move).0
      && after == files - {BackupPath(toReplace)}
  {
    BackupDiffers(toReplace);
    var bkp := BackupPath(toReplace);
    var f1 := (files - {toReplace})[bkp := files[toReplace]];
    var after := Replace(files, toReplace, replaceWith, faults).1;
    assert after == (f1 - {bkp})[toReplace := files[toReplace]];
    assert after == files - {bkp};
  }

  /** A failed replacement never loses the original: its content is still
      at `toReplace` or at the backup path. */
  lemma ReplaceKeepsOriginal(files: map<Path, Bytes>, toReplace: Path, replaceWith: Path, faults: Faults)
    requires toReplace in files
    requires Replace(files, toReplace, replaceWith, faults).0.Failed?
    ensures var after := Replace(files, toReplace, replaceWith, faults).1;
      || (toReplace in after && after[toReplace] == files[toReplace])
      || (BackupPath(toReplace) in after && after[BackupPath(toReplace)] == files[toReplace])
  {
    BackupDiffers(toReplace);
  }

  /** The filesystem `replaceFile` works on. */
  class FileSystem {
    var files: map<Path, Bytes>

    constructor(initial: map<Path, Bytes>)
      ensures files == initial
    {
      files := initial;
    }

    method Rename(from: Path, to: Path, fault: bool) returns (r: Outcome)
      modifies this
      ensures (r, files) == RenameStep(old(files), from, to, fault)
    {
      if from !in files {
        r := Failed(NoSuchFile(from));
      } else if fault {
        r := Failed(External(from));
      } else {
        files := (files - {from})[to := files[from]];
        r := Done;
      }
    }

    method Move(src: Path, dest: Path, fault: bool) returns (r: Outcome)
      modifies this
      ensures (r, files) == MoveStep(old(files), src, dest, fault)
    {
      if src !in files {
        r := Failed(NoSuchFile(src));
      } else if src == dest {
        r := Failed(SamePath(src));
      } else if dest in files {
        r := Failed(DestinationExists(dest));
      } else if fault {
        r := Failed(External(src));
      } else {
        files := (files - {src})[dest := files[src]];
        r := Done;
      }
    }

    /** `fs.remove(p)`: removes the file if it exists. */
    method Remove(p: Path)
      modifies this
      ensures files == old(files) - {p}
    {
      files := files - {p};
    }
  }

  /** `_.replaceFile(toReplace, replaceWith)`: back up, move, and restore
      the backup if the move fails. */
  method ReplaceFile(fs: FileSystem, toReplace: Path, replaceWith: Path, faults: Faults) returns (r: Outcome)
    modifies fs
    ensures (r, fs.files) == Replace(old(fs.files), toReplace, replaceWith, faults)
  {
    var bkp := BackupPath(toReplace);
    r := fs.Rename(toReplace, bkp, faults.backup);
    if r.Failed? {
      return;
    }
    var moved := fs.Move(replaceWith, toReplace, faults.move);
    if moved.Failed? {
      var restored := fs.Rename(bkp, toReplace, faults.restore);
      r := if restored.Failed? then restored else moved;
      return;
    }
    fs.Remove(bkp);
    r := Done;
  }
}
