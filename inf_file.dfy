/** PRESTO `.inf` metadata as the concatenation script sees it: a Python dict
    from key text to value text, read from the lines of a file and written
    back as text.  A dict keeps its keys in insertion order, and assigning to
    a key already present keeps its place, so it is modelled as a sequence of
    entries. */
module InfFile {
  import opened Wrappers
  import opened Text

  datatype Entry = Entry(key: string, value: string)

  /** A Python dict: entries in insertion order. */
  type Dict = seq<Entry>

  /** No entry of d has key k. */
  predicate Absent(d: Dict, k: string) {
    forall j :: 0 <= j < |d| ==> d[j].key != k
  }

  predicate DistinctKeys(d: Dict) {
    forall i, j :: 0 <= i < j < |d| ==> d[i].key != d[j].key
  }

  /** Position of key k, or -1. */
  function KeyIndex(d: Dict, k: string): (i: int)
    ensures -1 <= i < |d|
    ensures i == -1 ==> Absent(d, k)
    ensures i >= 0 ==> d[i].key == k && forall j :: 0 <= j < i ==> d[j].key != k
  {
    KeyFrom(d, k, 0)
  }

  /** Position of the first entry with key k at or after n, or -1. */
  function KeyFrom(d: Dict, k: string, n: nat): (i: int)
    requires n <= |d|
    ensures -1 <= i < |d|
    ensures i == -1 ==> forall j :: n <= j < |d| ==> d[j].key != k
    ensures i >= 0 ==> n <= i && d[i].key == k && forall j :: n <= j < i ==> d[j].key != k
    decreases |d| - n
  {
    if n == |d| then -1
    else if d[n].key == k then n
    else KeyFrom(d, k, n + 1)
  }

  /** The first entry with key k is the one KeyIndex finds. */
  lemma KeyIndexIs(d: Dict, k: string, i: int)
    requires 0 <= i < |d| && d[i].key == k
    requires forall j :: 0 <= j < i ==> d[j].key != k
    ensures KeyIndex(d, k) == i
  {
  }

  /** d.get(k). */
  function Get(d: Dict, k: string): Option<string> {
    var i := KeyIndex(d, k);
    if i == -1 then None else Some(d[i].value)
  }

  /** get finds nothing exactly when no entry has the key, and what it finds
      is the value of the first entry with that key. */
  lemma GetMeaning(d: Dict, k: string)
    ensures Get(d, k).None? <==> Absent(d, k)
    ensures Get(d, k).Some? ==> exists i :: 0 <= i < |d| && d[i] == Entry(k, Get(d, k).value)
  {
    var i := KeyIndex(d, k);
    if i != -1 {
      assert d[i] == Entry(k, Get(d, k).value);
    }
  }

  /** With distinct keys, the value stored under a key is what get returns. */
  lemma GetDistinct(d: Dict, i: int)
    requires DistinctKeys(d) && 0 <= i < |d|
    ensures Get(d, d[i].key) == Some(d[i].value)
  {
    KeyIndexIs(d, d[i].key, i);
  }

  /** d[k] = v: a present key keeps its place, a new key goes last. */
  function Set(d: Dict, k: string, v: string): (r: Dict)
    ensures |d| <= |r| <= |d| + 1
  {
    var i := KeyIndex(d, k);
    if i == -1 then d + [Entry(k, v)] else d[i := Entry(k, v)]
  }

  /** After d[k] = v, get(k) is v. */
  lemma GetSetSame(d: Dict, k: string, v: string)
    ensures Get(Set(d, k, v), k) == Some(v)
  {
    var i := KeyIndex(d, k);
    if i == -1 {
      KeyIndexIs(Set(d, k, v), k, |d|);
    } else {
      KeyIndexIs(Set(d, k, v), k, i);
    }
  }

  /** After d[k] = v, a key other than k reads as before. */
  lemma GetSetOther(d: Dict, k: string, v: string, k': string)
    requires k' != k
    ensures Get(Set(d, k, v), k') == Get(d, k')
  {
    var r := Set(d, k, v);
    var j := KeyIndex(d, k');
    if j == -1 {
      assert Absent(r, k') by {
        forall m | 0 <= m < |r| ensures r[m].key != k' {
          if m < |d| {
            assert r[m].key == k || r[m] == d[m];
          }
        }
      }
    } else {
      KeyIndexIs(r, k', j);
    }
  }

  /** After d[k] = v, get(k) is v and every other key reads as before. */
  lemma GetSet(d: Dict, k: string, v: string)
    ensures Get(Set(d, k, v), k) == Some(v)
    ensures forall k' :: k' != k ==> Get(Set(d, k, v), k') == Get(d, k')
  {
    GetSetSame(d, k, v);
    forall k' | k' != k ensures Get(Set(d, k, v), k') == Get(d, k') {
      GetSetOther(d, k, v, k');
    }
  }

  /** d[k] = v keeps the entries already present in their places, changing
      only the value under k, and appends k at the end when it is new. */
  lemma SetKeepsOrder(d: Dict, k: string, v: string)
    ensures var r := Set(d, k, v);
      && (Absent(d, k) ==> r == d + [Entry(k, v)])
      && (!Absent(d, k) ==> |r| == |d|)
      && (forall i :: 0 <= i < |d| ==> r[i].key == d[i].key)
      && (forall i :: 0 <= i < |d| && d[i].key != k ==> r[i] == d[i])
  {
  }

  /** d[k] = v keeps keys distinct. */
  lemma SetDistinct(d: Dict, k: string, v: string)
    requires DistinctKeys(d)
    ensures DistinctKeys(Set(d, k, v))
  {
    if KeyIndex(d, k) == -1 {
      assert forall j :: 0 <= j < |d| ==> d[j].key != k;
    }
  }

  /* ---------------- read_inf ---------------- */

  const NotesHeader := "Any additional notes:"
  const NotesKey := "Any additional notes"

  /** How read_inf treats one line before the notes section. */
  datatype LineKind =
    | Assign(entry: Entry)  // holds '=': stripped text before the first '=', stripped text after
    | Header                // opens the free-text notes section
    | Ignored               // anything else

  /** The line opens the notes section. */
  predicate IsHeader(line: string) {
    StartsWith(Strip(line), NotesHeader)
  }

  function Classify(line: string): LineKind {
    var t := Strip(line);
    var eq := IndexOf(t, '=');
    if eq >= 0 && !IsHeader(line) then
      var (key, value) := SplitOnce(t, '=');
      Assign(Entry(Strip(key), Strip(value)))
    else if IsHeader(line) then Header
    else Ignored
  }

  predicate Defines(kind: LineKind, k: string) {
    kind.Assign? && kind.entry.key == k
  }

  /** The dict built from the assignments among the first n lines, in order:
      a later assignment to a key overwrites an earlier one. */
  function Fields(lines: seq<string>, n: nat): Dict
    requires n <= |lines|
  {
    if n == 0 then []
    else
      var d := Fields(lines, n - 1);
      match Classify(lines[n - 1])
      case Assign(e) => Set(d, e.key, e.value)
      case _ => d
  }

  /** Index of the first notes header at or after k, or |lines| when there
      is none. */
  function HeaderFrom(lines: seq<string>, k: nat): (h: nat)
    requires k <= |lines|
    ensures k <= h <= |lines|
    ensures forall j :: k <= j < h ==> !IsHeader(lines[j])
    ensures h < |lines| ==> IsHeader(lines[h])
    decreases |lines| - k
  {
    if k == |lines| || IsHeader(lines[k]) then k else HeaderFrom(lines, k + 1)
  }

  /** The first header from k is the first header line at or after k. */
  lemma {:induction false} HeaderFromIs(lines: seq<string>, k: nat, h: nat)
    requires k <= h <= |lines|
    requires forall j :: k <= j < h ==> !IsHeader(lines[j])
    requires h < |lines| ==> IsHeader(lines[h])
    ensures HeaderFrom(lines, k) == h
    decreases h - k
  {
    if k < h {
      HeaderFromIs(lines, k + 1, h);
    }
  }

  /** The non-blank lines among lines[start..end], stripped, in order. */
  function Notes(lines: seq<string>, start: nat, end: nat): seq<string>
    requires start <= end <= |lines|
    decreases end
  {
    if end == start then []
    else
      var t := Strip(lines[end - 1]);
      Notes(lines, start, end - 1) + (if |t| > 0 then [t] else [])
  }

  /** Every note is a non-blank, stripped line, and there are no more notes
      than lines. */
  lemma {:induction false} NotesNonBlank(lines: seq<string>, start: nat, end: nat)
    requires start <= end <= |lines|
    ensures var notes := Notes(lines, start, end);
      |notes| <= end - start && forall i :: 0 <= i < |notes| ==> |notes[i]| > 0
    decreases end
  {
    if end > start {
      NotesNonBlank(lines, start, end - 1);
      var prev := Notes(lines, start, end - 1);
      var t := Strip(lines[end - 1]);
      var notes := Notes(lines, start, end);
      assert notes == prev + (if |t| > 0 then [t] else []);
      forall i | 0 <= i < |notes| ensures |notes[i]| > 0 {
        if i < |prev| {
          assert notes[i] == prev[i];
        } else {
          assert notes[i] == t;
        }
      }
    }
  }

  /** What read_inf returns for a file with these lines: the assignments up to
      the first notes header, then the notes key holding the remaining
      non-blank lines joined with newlines. */
  function InfOf(lines: seq<string>): Dict {
    var h := HeaderFrom(lines, 0);
    if h == |lines| then Fields(lines, |lines|)
    else Set(Fields(lines, h), NotesKey, Join(Notes(lines, h + 1, |lines|), "\n"))
  }

  /** read_inf on the lines of a file. */
  method ReadInf(lines: seq<string>) returns (d: Dict)
    ensures d == InfOf(lines)
  {
    d := [];
    var i := 0;
    while i < |lines|
      invariant 0 <= i <= |lines|
      invariant HeaderFrom(lines, 0) == HeaderFrom(lines, i)
      invariant d == Fields(lines, i)
    {
      var line := Strip(lines[i]);
      var eq := IndexOf(line, '=');
      if eq >= 0 && !StartsWith(line, NotesHeader) {
        var (key, value) := SplitOnce(line, '=');
        assert Classify(lines[i]) == Assign(Entry(Strip(key), Strip(value)));
        d := Set(d, Strip(key), Strip(value));
      } else if StartsWith(line, NotesHeader) {
        assert HeaderFrom(lines, i) == i;
        var notes := CollectNotes(lines, i + 1);
        d := Set(d, NotesKey, Join(notes, "\n"));
        return;
      } else {
        assert Classify(lines[i]) == Ignored;
      }
      i := i + 1;
    }
  }

  /** The inner loop of read_inf: the rest of the file, as notes. */
  method CollectNotes(lines: seq<string>, start: nat) returns (notes: seq<string>)
    requires start <= |lines|
    ensures notes == Notes(lines, start, |lines|)
  {
    notes := [];
    var j := start;
    while j < |lines|
      invariant start <= j <= |lines|
      invariant notes == Notes(lines, start, j)
    {
      var noteLine := Strip(lines[j]);
      if noteLine != "" {
        notes := notes + [noteLine];
      }
      j := j + 1;
    }
  }

  /** The value on the last of the first n lines that assigns k, found by
      scanning backwards: a reference definition for the dict that read_inf
      fills front to back. */
  function LastAssigned(lines: seq<string>, n: nat, k: string): Option<string>
    requires n <= |lines|
  {
    if n == 0 then None
    else
      var kind := Classify(lines[n - 1]);
      if Defines(kind, k) then Some(kind.entry.value) else LastAssigned(lines, n - 1, k)
  }

  /** Filling the dict front to back leaves every key with its last
      assigned value. */
  lemma {:induction false} FieldsGet(lines: seq<string>, n: nat, k: string)
    requires n <= |lines|
    ensures Get(Fields(lines, n), k) == LastAssigned(lines, n, k)
  {
    if n > 0 {
      FieldsGet(lines, n - 1, k);
      var prev := Fields(lines, n - 1);
      var kind := Classify(lines[n - 1]);
      if Defines(kind, k) {
        GetSetSame(prev, k, kind.entry.value);
      } else if kind.Assign? {
        GetSetOther(prev, kind.entry.key, kind.entry.value, k);
      }
    }
  }

  /** No value is found exactly when none of the lines assigns the key. */
  lemma {:induction false} LastAssignedNone(lines: seq<string>, n: nat, k: string)
    requires n <= |lines|
    ensures LastAssigned(lines, n, k).None? <==> forall i :: 0 <= i < n ==> !Defines(Classify(lines[i]), k)
  {
    if n > 0 {
      LastAssignedNone(lines, n - 1, k);
      if Defines(Classify(lines[n - 1]), k) {
        assert LastAssigned(lines, n, k).Some?;
      } else {
        assert LastAssigned(lines, n, k) == LastAssigned(lines, n - 1, k);
      }
    }
  }

  /** The value found is the one on the last line that assigns the key. */
  lemma {:induction false} LastAssignedWins(lines: seq<string>, n: nat, k: string, i: nat)
    requires i < n <= |lines| && Defines(Classify(lines[i]), k)
    requires forall j :: i < j < n ==> !Defines(Classify(lines[j]), k)
    ensures LastAssigned(lines, n, k) == Some(Classify(lines[i]).entry.value)
  {
    if i < n - 1 {
      LastAssignedWins(lines, n - 1, k, i);
    }
  }

  /** A key is missing from the fields of the first n lines exactly when none
      of them assigns it. */
  lemma FieldsAbsent(lines: seq<string>, n: nat, k: string)
    requires n <= |lines|
    ensures Get(Fields(lines, n), k).None? <==> forall i :: 0 <= i < n ==> !Defines(Classify(lines[i]), k)
  {
    FieldsGet(lines, n, k);
    LastAssignedNone(lines, n, k);
  }

  /** The value of a key is the one on the last line that assigns it. */
  lemma FieldsLastWins(lines: seq<string>, n: nat, k: string, i: nat)
    requires i < n <= |lines| && Defines(Classify(lines[i]), k)
    requires forall j :: i < j < n ==> !Defines(Classify(lines[j]), k)
    ensures Get(Fields(lines, n), k) == Some(Classify(lines[i]).entry.value)
  {
    FieldsGet(lines, n, k);
    LastAssignedWins(lines, n, k, i);
  }

  /** Parsed keys are distinct: a repeated key overwrites in place. */
  lemma {:induction false} FieldsDistinct(lines: seq<string>, n: nat)
    requires n <= |lines|
    ensures DistinctKeys(Fields(lines, n))
  {
    if n > 0 {
      FieldsDistinct(lines, n - 1);
      var kind := Classify(lines[n - 1]);
      if kind.Assign? {
        SetDistinct(Fields(lines, n - 1), kind.entry.key, kind.entry.value);
      }
    }
  }

  /** With a notes header at h, the notes key holds the joined notes and every
      other key is as assigned before the header; nothing after the header
      assigns a key. */
  lemma InfOfNotes(lines: seq<string>, h: nat)
    requires h < |lines| && IsHeader(lines[h])
    requires forall j :: 0 <= j < h ==> !IsHeader(lines[j])
    ensures Get(InfOf(lines), NotesKey) == Some(Join(Notes(lines, h + 1, |lines|), "\n"))
    ensures forall k :: k != NotesKey ==> Get(InfOf(lines), k) == Get(Fields(lines, h), k)
  {
    HeaderFromIs(lines, 0, h);
    GetSet(Fields(lines, h), NotesKey, Join(Notes(lines, h + 1, |lines|), "\n"));
  }

  /** Without a notes header, read_inf returns the fields of all lines. */
  lemma InfOfNoNotes(lines: seq<string>)
    requires forall j :: 0 <= j < |lines| ==> !IsHeader(lines[j])
    ensures InfOf(lines) == Fields(lines, |lines|)
  {
    HeaderFromIs(lines, 0, |lines|);
  }

  /* ---------------- write_dat ---------------- */

  const DataNameKey := "Data file name without suffix"
  const EpochKey := "Epoch of observation (MJD)"
  const BinsKey := "Number of bins in the time series"
  const VersionLine := "Concatenated using concatenate_dat.py v1.0.0"

  /** os.path.basename: the text after the last '/' (all of the path when
      it has none). */
  function Basename(path: string): (name: string)
    ensures |name| <= |path| && Lacks(name, '/')
    ensures forall j :: 0 <= j < |name| ==> name[j] == path[|path| - |name| + j]
    ensures |name| < |path| ==> path[|path| - |name| - 1] == '/'
  {
    path[LastIndexOf(path, '/') + 1..]
  }

  /** The metadata written for the concatenated series: a copy of the first
      file's dict with the data name, the epoch text and the bin count
      replaced (UpdatedInfGet and UpdatedInfKeepsOrder state the result).
      The epoch is given as the text str() makes of the float. */
  function UpdatedInf(base: Dict, outputFile: string, epochText: string, numBins: nat): Dict {
    var d1 := Set(base, DataNameKey, Basename(outputFile));
    var d2 := Set(d1, EpochKey, epochText);
    Set(d2, BinsKey, IntToString(numBins))
  }

  lemma UpdatedKeysDiffer()
    ensures DataNameKey != EpochKey && DataNameKey != BinsKey && EpochKey != BinsKey
  {
    assert |DataNameKey| == 29 && |EpochKey| == 26 && |BinsKey| == 33;
  }

  /** The copy holds the three new values, and every other key reads as in
      the first file's dict. */
  lemma UpdatedInfGet(base: Dict, outputFile: string, epochText: string, numBins: nat, k: string)
    ensures var r := UpdatedInf(base, outputFile, epochText, numBins);
      && Get(r, DataNameKey) == Some(Basename(outputFile))
      && Get(r, EpochKey) == Some(epochText)
      && Get(r, BinsKey) == Some(IntToString(numBins))
      && (k != DataNameKey && k != EpochKey && k != BinsKey ==> Get(r, k) == Get(base, k))
  {
    var name, bins := Basename(outputFile), IntToString(numBins);
    var d1 := Set(base, DataNameKey, name);
    var d2 := Set(d1, EpochKey, epochText);
    UpdatedKeysDiffer();
    GetSetSame(base, DataNameKey, name);
    GetSetOther(d1, EpochKey, epochText, DataNameKey);
    GetSetOther(d2, BinsKey, bins, DataNameKey);
    GetSetSame(d1, EpochKey, epochText);
    GetSetOther(d2, BinsKey, bins, EpochKey);
    GetSetSame(d2, BinsKey, bins);
    if k != DataNameKey && k != EpochKey && k != BinsKey {
      GetSetOther(base, DataNameKey, name, k);
      GetSetOther(d1, EpochKey, epochText, k);
      GetSetOther(d2, BinsKey, bins, k);
    }
  }

  /** The copy keeps distinct keys distinct. */
  lemma UpdatedInfDistinct(base: Dict, outputFile: string, epochText: string, numBins: nat)
    requires DistinctKeys(base)
    ensures DistinctKeys(UpdatedInf(base, outputFile, epochText, numBins))
  {
    var d1 := Set(base, DataNameKey, Basename(outputFile));
    var d2 := Set(d1, EpochKey, epochText);
    SetDistinct(base, DataNameKey, Basename(outputFile));
    SetDistinct(d1, EpochKey, epochText);
    SetDistinct(d2, BinsKey, IntToString(numBins));
  }

  /** The copy keeps the first file's keys in their order, with the entries
      it does not overwrite unchanged; keys it lacked come after them. */
  lemma UpdatedInfKeepsOrder(base: Dict, outputFile: string, epochText: string, numBins: nat)
    ensures var r := UpdatedInf(base, outputFile, epochText, numBins);
      && |base| <= |r| <= |base| + 3
      && (forall i :: 0 <= i < |base| ==> r[i].key == base[i].key)
      && (forall i :: 0 <= i < |base| && base[i].key != DataNameKey && base[i].key != EpochKey && base[i].key != BinsKey ==> r[i] == base[i])
  {
    var d1 := Set(base, DataNameKey, Basename(outputFile));
    var d2 := Set(d1, EpochKey, epochText);
    var r := Set(d2, BinsKey, IntToString(numBins));
    SetKeepsOrder(base, DataNameKey, Basename(outputFile));
    SetKeepsOrder(d1, EpochKey, epochText);
    SetKeepsOrder(d2, BinsKey, IntToString(numBins));
    forall i | 0 <= i < |base| ensures r[i].key == base[i].key {
      assert r[i].key == d2[i].key == d1[i].key;
    }
    forall i | 0 <= i < |base| && base[i].key != DataNameKey && base[i].key != EpochKey && base[i].key != BinsKey
      ensures r[i] == base[i]
    {
      assert r[i] == d2[i] == d1[i];
    }
  }

  /** The text written for one entry. */
  function EntryText(e: Entry): string {
    if e.key == NotesKey then
      NotesHeader + "\n" + VersionLine + "\n" + (if e.value != "" then "Original notes: " + e.value + "\n" else "")
    else " " + e.key + " = " + e.value + "\n"
  }

  /** The whole text of the written .inf file. */
  function InfText(d: Dict): string {
    if |d| == 0 then "" else InfText(d[..|d| - 1]) + EntryText(d[|d| - 1])
  }

  /** The writing loop of write_dat, one entry after another. */
  method WriteInf(d: Dict) returns (text: string)
    ensures text == InfText(d)
  {
    text := "";
    var i := 0;
    while i < |d|
      invariant 0 <= i <= |d|
      invariant text == InfText(d[..i])
    {
      text := text + EntryText(d[i]);
      assert d[..i + 1][..i] == d[..i];
      i := i + 1;
    }
    assert d[..i] == d;
  }
}
