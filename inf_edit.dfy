/** The .inf editing of fits2dat: modify_inf_line rewrites the value on one
    numbered line of a file, update_inf copies the template .inf and rewrites
    ten fixed lines of the copy; plus the small naming and lookup rules of the
    script's main: where copy_inf_file puts its copy, the output filename cut
    out of the input path, the pulsar name, and where RA and DEC come from.
    A file is the list of lines readlines() returns; the files the script can
    open are a map from path to lines. A value is the text str() makes of it. */
module InfEdit {
  import opened Wrappers
  import opened Text
  import InfFile

  /* ---------------- one line ---------------- */

  /** What readlines() returns in text mode: no line is empty or holds a
      '\r' (universal newlines turn it into a line end), a newline only ends
      a line, and every line but the last ends with one. */
  predicate ReadLines(lines: seq<string>) {
    forall i :: 0 <= i < |lines| ==> LineShape(lines[i], i == |lines| - 1)
  }

  predicate LineShape(line: string, last: bool) {
    && |line| > 0
    && Lacks(line, '\r')
    && (forall k :: 0 <= k < |line| - 1 ==> line[k] != '\n')
    && (!last ==> line[|line| - 1] == '\n')
  }

  /** A value that stays on one line once written: no '\n' and no '\r'. */
  predicate OneLine(value: string) {
    Lacks(value, '\n') && Lacks(value, '\r')
  }

  /** file.writelines(lines): the lines written one after the other. */
  function WrittenText(lines: seq<string>): string {
    if |lines| == 0 then "" else lines[0] + WrittenText(lines[1..])
  }

  /** file.readlines() on a text free of '\r': each line runs up to and
      including the next '\n', the last one possibly without it. */
  function ReadBack(text: string): (lines: seq<string>)
    decreases |text|
  {
    if |text| == 0 then []
    else
      var i := IndexOf(text, '\n');
      if i < 0 then [text] else [text[..i + 1]] + ReadBack(text[i + 1..])
  }

  /** Lines of the shape readlines() returns, written with writelines() and
      read again, come back unchanged. */
  lemma {:induction false} ReadBackWritten(lines: seq<string>)
    requires ReadLines(lines)
    ensures ReadBack(WrittenText(lines)) == lines
    decreases |lines|
  {
    if |lines| > 0 {
      var line, rest := lines[0], WrittenText(lines[1..]);
      var text := line + rest;
      assert LineShape(line, |lines| == 1);
      assert forall i :: 0 <= i < |lines| - 1 ==> lines[1..][i] == lines[i + 1];
      ReadBackWritten(lines[1..]);
      if line[|line| - 1] == '\n' {
        IndexOfUnique(text, '\n', |line| - 1);
        assert text[..|line|] == line;
        assert text[|line|..] == rest;
        if |lines| == 1 {
          assert rest == "";
        }
      } else {
        assert |lines| == 1 && rest == "" && text == line;
        assert Lacks(line, '\n');
      }
    }
  }

  /** The line modify_inf_line writes in place of a line holding '=': the
      pieces of the line split on '=', all but the last, joined back with
      '=', then "=  ", the value and a newline (with two pieces, the first
      piece alone). */
  function EditedLine(line: string, value: string): string
    requires !Lacks(line, '=')
  {
    var parts := SplitOn(line, '=');
    if |parts| == 2 then parts[0] + "=  " + value + "\n"
    else Join(parts[..|parts| - 1], "=") + "=  " + value + "\n"
  }

  /** Both branches keep exactly the text before the line's last '='. */
  lemma EditedLineKeepsPrefix(line: string, value: string)
    requires !Lacks(line, '=')
    ensures var i := LastIndexOf(line, '=');
      i >= 0 && EditedLine(line, value) == line[..i] + "=  " + value + "\n"
  {
    var parts := SplitOn(line, '=');
    var n := |parts|;
    SplitOnFirst(line, '=');
    assert n >= 2;
    var p := Join(parts[..n - 1], "=");
    assert line == p + "=" + parts[n - 1] by {
      JoinSplitOn(line, '=');
      JoinSnoc(parts, "=");
    }
    assert Lacks(parts[n - 1], '=') by {
      SplitOnLacks(line, '=');
    }
    SplitAtLast(line, p, parts[n - 1]);
    if n == 2 {
      assert parts[..1] == [parts[0]];
    }
  }

  /** In p + "=" + last with no '=' in last, the last '=' sits at |p|. */
  lemma SplitAtLast(line: string, p: string, last: string)
    requires line == p + "=" + last && Lacks(last, '=')
    ensures LastIndexOf(line, '=') == |p| && line[..|p|] == p
  {
    forall j | |p| < j < |line| ensures line[j] != '=' {
      assert line[j] == last[j - |p| - 1];
    }
    LastIndexOfUnique(line, '=', |p|);
  }

  /** modify_inf_line on the lines of one file: None where it returns False
      (a line number outside 1..len(lines), or a line without '='), and the
      new lines otherwise. */
  function LineEdit(lines: seq<string>, lineNumber: int, value: string): Option<seq<string>> {
    if lineNumber < 1 || lineNumber > |lines| then None
    else if Lacks(lines[lineNumber - 1], '=') then None
    else Some(lines[lineNumber - 1 := EditedLine(lines[lineNumber - 1], value)])
  }

  /** An edit succeeds exactly on an existing line holding '='; it rewrites
      that line to its text before the last '=', "=  ", the value and a
      newline, and leaves the number of lines and every other line alone. */
  lemma LineEditEffect(lines: seq<string>, lineNumber: int, value: string)
    ensures LineEdit(lines, lineNumber, value).Some? <==>
      1 <= lineNumber <= |lines| && !Lacks(lines[lineNumber - 1], '=')
    ensures LineEdit(lines, lineNumber, value).Some? ==>
      var r, line := LineEdit(lines, lineNumber, value).value, lines[lineNumber - 1];
      && |r| == |lines|
      && r[lineNumber - 1] == line[..LastIndexOf(line, '=')] + "=  " + value + "\n"
      && forall j :: 0 <= j < |lines| && j != lineNumber - 1 ==> r[j] == lines[j]
  {
    if LineEdit(lines, lineNumber, value).Some? {
      EditedLineKeepsPrefix(lines[lineNumber - 1], value);
    }
  }

  /** A one-line value keeps the file a list readlines() could have
      returned, so the lines writelines() stores read back unchanged before
      the next edit. */
  lemma LineEditKeepsShape(lines: seq<string>, lineNumber: int, value: string)
    requires ReadLines(lines) && OneLine(value)
    requires LineEdit(lines, lineNumber, value).Some?
    ensures ReadLines(LineEdit(lines, lineNumber, value).value)
    ensures ReadBack(WrittenText(LineEdit(lines, lineNumber, value).value)) == LineEdit(lines, lineNumber, value).value
  {
    var r, line := LineEdit(lines, lineNumber, value).value, lines[lineNumber - 1];
    var i := LastIndexOf(line, '=');
    EditedLineKeepsPrefix(line, value);
    var edited := line[..i] + "=  " + value + "\n";
    assert LineShape(line, lineNumber == |lines|);
    assert LineShape(edited, true) && LineShape(edited, false) by {
      forall k | 0 <= k < |edited| - 1 ensures edited[k] != '\n' {
        if k < i {
          assert edited[k] == line[k];
        } else if k >= i + 3 {
          assert edited[k] == value[k - i - 3];
        }
      }
    }
    forall j | 0 <= j < |r| ensures LineShape(r[j], j == |r| - 1) {
      if j != lineNumber - 1 {
        assert r[j] == lines[j];
      }
    }
    ReadBackWritten(r);
  }

  /* ---------------- paths ---------------- */

  /** posixpath.join(a, b) for two components. */
  function PathJoin(a: string, b: string): (p: string)
    ensures |b| <= |p|
    ensures forall j :: 0 <= j < |b| ==> p[|p| - |b| + j] == b[j]
  {
    if |b| > 0 && b[0] == '/' then b
    else if |a| == 0 || a[|a| - 1] == '/' then a + b
    else a + "/" + b
  }

  /** Python truthiness of an optional string: given and not empty. */
  predicate Given(s: Option<string>) {
    s.Some? && |s.value| > 0
  }

  /** The name copy_inf_file gives the copy, before ".inf". */
  function CopyName(source: string, newName: Option<string>): string {
    if Given(newName) then newName.value else InfFile.Basename(source)
  }

  /** Where copy_inf_file puts the copy. */
  function CopyDestination(source: string, folder: string, newName: Option<string>): string {
    PathJoin(folder, CopyName(source, newName) + ".inf")
  }

  /** A name without '/' joined onto a folder: the path starts with the
      folder and its basename is the name. */
  lemma JoinedBasename(folder: string, name: string)
    requires Lacks(name, '/') && |name| > 0
    ensures StartsWith(PathJoin(folder, name), folder)
    ensures InfFile.Basename(PathJoin(folder, name)) == name
  {
    var x := if |folder| == 0 || folder[|folder| - 1] == '/' then folder else folder + "/";
    assert PathJoin(folder, name) == x + name;
    assert (x + name)[..|folder|] == folder;
    AppendedBasename(x, name);
  }

  /** A name without '/' after a prefix that is empty or ends in '/' is the
      basename of the whole. */
  lemma AppendedBasename(x: string, name: string)
    requires Lacks(name, '/') && (|x| > 0 ==> x[|x| - 1] == '/')
    ensures InfFile.Basename(x + name) == name
  {
    var p := x + name;
    forall j | |x| <= j < |p| ensures p[j] != '/' {
      assert p[j] == name[j - |x|];
    }
    BasenameOfTail(p, |x|);
    assert p[|x|..] == name;
  }

  /** A path whose text from k on has no '/', with a '/' just before k when
      k > 0, has that text as its basename. */
  lemma BasenameOfTail(p: string, k: nat)
    requires k <= |p| && (k > 0 ==> p[k - 1] == '/')
    requires forall j :: k <= j < |p| ==> p[j] != '/'
    ensures InfFile.Basename(p) == p[k..]
  {
    if k > 0 {
      LastIndexOfUnique(p, '/', k - 1);
    }
  }

  lemma LacksAppend(a: string, b: string, c: char)
    requires Lacks(a, c) && Lacks(b, c)
    ensures Lacks(a + b, c)
  {
    forall j | 0 <= j < |a + b| ensures (a + b)[j] != c {
      if j < |a| {
        assert (a + b)[j] == a[j];
      } else {
        assert (a + b)[j] == b[j - |a|];
      }
    }
  }

  /** The copy lands in the destination folder under the new name, or the
      source's own file name when no new name is given, with ".inf" added. */
  lemma CopyDestinationName(source: string, folder: string, newName: Option<string>)
    requires Given(newName) ==> Lacks(newName.value, '/')
    ensures var dest := CopyDestination(source, folder, newName);
      && StartsWith(dest, folder)
      && InfFile.Basename(dest) == CopyName(source, newName) + ".inf"
      && (!Given(newName) ==> InfFile.Basename(dest) == InfFile.Basename(source) + ".inf")
  {
    var base := CopyName(source, newName);
    assert Lacks(base, '/');
    LacksAppend(base, ".inf", '/');
    JoinedBasename(folder, base + ".inf");
  }

  /* ---------------- the files ---------------- */

  /** The files after copy_inf_file: the source's lines under the
      destination path, when the source can be opened. */
  function Copied(files: map<string, seq<string>>, source: string, folder: string,
                  newName: Option<string>): map<string, seq<string>> {
    if source in files then files[CopyDestination(source, folder, newName) := files[source]]
    else files
  }

  /** The files after modify_inf_line: the file rewritten when the edit
      succeeds, and nothing changed otherwise. */
  function Modified(files: map<string, seq<string>>, path: string, lineNumber: int,
                    value: string): map<string, seq<string>> {
    if path in files && LineEdit(files[path], lineNumber, value).Some? then
      files[path := LineEdit(files[path], lineNumber, value).value]
    else files
  }

  /** The values update_inf writes, as text. */
  datatype InfValues = InfValues(
    filename: string, binTime: string, t0: string, pts: int, brks: bool,
    target: string, ra: string, dec: string, analyzedBy: string, bary: int)

  /** The edits update_inf makes, in order: line number and value. */
  function TemplateEdits(v: InfValues): seq<(int, string)> {
    [(1, v.filename), (4, v.target), (5, v.ra), (6, v.dec), (8, v.t0),
     (9, IntToString(v.bary)), (10, IntToString(v.pts)), (11, v.binTime),
     (12, if v.brks then "1" else "0"), (18, v.analyzedBy)]
  }

  /** Which line of the template receives which value. */
  function TemplateValue(v: InfValues, lineNumber: int): (r: Option<string>)
    ensures r.Some? <==> lineNumber in {1, 4, 5, 6, 8, 9, 10, 11, 12, 18}
  {
    match lineNumber
    case 1 => Some(v.filename)
    case 4 => Some(v.target)
    case 5 => Some(v.ra)
    case 6 => Some(v.dec)
    case 8 => Some(v.t0)
    case 9 => Some(IntToString(v.bary))
    case 10 => Some(IntToString(v.pts))
    case 11 => Some(v.binTime)
    case 12 => Some(if v.brks then "1" else "0")
    case 18 => Some(v.analyzedBy)
    case _ => None
  }

  /** One edit applied to lines; a failing edit changes nothing. */
  function ApplyEdit(lines: seq<string>, e: (int, string)): seq<string> {
    match LineEdit(lines, e.0, e.1)
    case None => lines
    case Some(r) => r
  }

  /** The first k edits applied one after another. */
  function EditedLines(lines: seq<string>, edits: seq<(int, string)>, k: nat): (r: seq<string>)
    requires k <= |edits|
    ensures |r| == |lines|
  {
    if k == 0 then lines else ApplyEdit(EditedLines(lines, edits, k - 1), edits[k - 1])
  }

  /** The value of the last of the first k edits of a line, if any. */
  function ValueFor(edits: seq<(int, string)>, k: nat, lineNumber: int): Option<string>
    requires k <= |edits|
  {
    if k == 0 then None
    else if edits[k - 1].0 == lineNumber then Some(edits[k - 1].1)
    else ValueFor(edits, k - 1, lineNumber)
  }

  /** No two edits touch the same line. */
  predicate DistinctLines(edits: seq<(int, string)>) {
    forall i, k :: 0 <= i < k < |edits| ==> edits[i].0 != edits[k].0
  }

  lemma {:induction false} ValueForNone(edits: seq<(int, string)>, k: nat, lineNumber: int)
    requires k <= |edits| && forall i :: 0 <= i < k ==> edits[i].0 != lineNumber
    ensures ValueFor(edits, k, lineNumber) == None
  {
    if k > 0 {
      ValueForNone(edits, k - 1, lineNumber);
    }
  }

  /** With edits on distinct lines, an edited line's value is the one its
      edit carries. */
  lemma {:induction false} ValueForIndex(edits: seq<(int, string)>, k: nat, i: int)
    requires DistinctLines(edits) && 0 <= i < k <= |edits|
    ensures ValueFor(edits, k, edits[i].0) == Some(edits[i].1)
  {
    if i < k - 1 {
      ValueForIndex(edits, k - 1, i);
    }
  }

  /** With edits on distinct lines, each line is edited with its own value
      when it holds '=', and is left alone otherwise. */
  lemma {:induction false} EditedLinesAt(lines: seq<string>, edits: seq<(int, string)>, k: nat, j: int)
    requires DistinctLines(edits) && k <= |edits| && 0 <= j < |lines|
    ensures EditedLines(lines, edits, k)[j] ==
      if ValueFor(edits, k, j + 1).Some? && !Lacks(lines[j], '=')
      then EditedLine(lines[j], ValueFor(edits, k, j + 1).value)
      else lines[j]
  {
    if k > 0 {
      var mid := EditedLines(lines, edits, k - 1);
      EditedLinesAt(lines, edits, k - 1, j);
      ApplyEditAt(mid, edits[k - 1], j);
      if edits[k - 1].0 == j + 1 {
        ValueForNone(edits, k - 1, j + 1);
      }
    }
  }

  /** One edit changes line j only when it targets j + 1 and that line
      holds '='. */
  lemma ApplyEditAt(lines: seq<string>, e: (int, string), j: int)
    requires 0 <= j < |lines|
    ensures ApplyEdit(lines, e)[j] ==
      if e.0 == j + 1 && !Lacks(lines[j], '=') then EditedLine(lines[j], e.1) else lines[j]
  {
  }

  /** Edits with one-line values keep the file a list readlines()
      could have returned. */
  lemma {:induction false} EditedLinesKeepShape(lines: seq<string>, edits: seq<(int, string)>, k: nat)
    requires ReadLines(lines) && k <= |edits|
    requires forall i :: 0 <= i < |edits| ==> OneLine(edits[i].1)
    ensures ReadLines(EditedLines(lines, edits, k))
  {
    if k > 0 {
      EditedLinesKeepShape(lines, edits, k - 1);
      var mid := EditedLines(lines, edits, k - 1);
      if LineEdit(mid, edits[k - 1].0, edits[k - 1].1).Some? {
        LineEditKeepsShape(mid, edits[k - 1].0, edits[k - 1].1);
      }
    }
  }

  /** Edits in ascending line order touch distinct lines. */
  lemma AscendingDistinct(edits: seq<(int, string)>)
    requires forall i :: 0 <= i < |edits| - 1 ==> edits[i].0 < edits[i + 1].0
    ensures DistinctLines(edits)
  {
    forall i, k | 0 <= i < k < |edits| ensures edits[i].0 < edits[k].0 {
      AscendingBetween(edits, i, k);
    }
  }

  lemma {:induction false} AscendingBetween(edits: seq<(int, string)>, i: int, k: int)
    requires forall a :: 0 <= a < |edits| - 1 ==> edits[a].0 < edits[a + 1].0
    requires 0 <= i < k < |edits|
    ensures edits[i].0 < edits[k].0
    decreases k - i
  {
    if i + 1 < k {
      AscendingBetween(edits, i + 1, k);
    }
  }

  /** The template's edits go to distinct lines, each with the value the
      line-number table gives it. */
  lemma TemplateEditsTable(v: InfValues, lineNumber: int)
    ensures DistinctLines(TemplateEdits(v))
    ensures ValueFor(TemplateEdits(v), 10, lineNumber) == TemplateValue(v, lineNumber)
  {
    var e := TemplateEdits(v);
    forall i | 0 <= i < |e| - 1 ensures e[i].0 < e[i + 1].0 {
      assert i == 0 || i == 1 || i == 2 || i == 3 || i == 4 || i == 5 || i == 6 || i == 7 || i == 8;
    }
    AscendingDistinct(e);
    match lineNumber
    case 1 => ValueForIndex(e, 10, 0);
    case 4 => ValueForIndex(e, 10, 1);
    case 5 => ValueForIndex(e, 10, 2);
    case 6 => ValueForIndex(e, 10, 3);
    case 8 => ValueForIndex(e, 10, 4);
    case 9 => ValueForIndex(e, 10, 5);
    case 10 => ValueForIndex(e, 10, 6);
    case 11 => ValueForIndex(e, 10, 7);
    case 12 => ValueForIndex(e, 10, 8);
    case 18 => ValueForIndex(e, 10, 9);
    case _ =>
      forall i | 0 <= i < |e| ensures e[i].0 != lineNumber {
        assert i == 0 || i == 1 || i == 2 || i == 3 || i == 4 || i == 5 || i == 6 || i == 7 || i == 8 || i == 9;
      }
      ValueForNone(e, 10, lineNumber);
  }

  /** The files after the first k edits of one path, one modify_inf_line
      call each. */
  function EditedFiles(files: map<string, seq<string>>, path: string, edits: seq<(int, string)>,
                       k: nat): map<string, seq<string>>
    requires k <= |edits|
  {
    if k == 0 then files
    else Modified(EditedFiles(files, path, edits, k - 1), path, edits[k - 1].0, edits[k - 1].1)
  }

  /** Edits of one path change that file's lines only, and nothing when the
      path does not exist. */
  lemma {:induction false} EditedFilesLines(files: map<string, seq<string>>, path: string,
                                            edits: seq<(int, string)>, k: nat)
    requires k <= |edits|
    ensures path in files ==> EditedFiles(files, path, edits, k) == files[path := EditedLines(files[path], edits, k)]
    ensures path !in files ==> EditedFiles(files, path, edits, k) == files
  {
    if k == 0 {
      if path in files {
        assert files[path := files[path]] == files;
      }
    } else {
      EditedFilesLines(files, path, edits, k - 1);
      if path in files {
        var lines := EditedLines(files[path], edits, k - 1);
        var r := ApplyEdit(lines, edits[k - 1]);
        assert files[path := lines][path := r] == files[path := r];
      }
    }
  }

  /** The files after update_inf: the template copied to the folder under
      the new file name, then modify_inf_line on the copy's lines 1, 4, 5,
      6, 8, 9, 10, 11, 12 and 18, in that order. */
  function UpdatedFiles(files: map<string, seq<string>>, template: string, fileDir: string,
                        v: InfValues): map<string, seq<string>> {
    var path := PathJoin(fileDir, v.filename + ".inf");
    var f0 := Copied(files, template, fileDir, Some(v.filename));
    var f1 := Modified(f0, path, 1, v.filename);
    var f2 := Modified(f1, path, 4, v.target);
    var f3 := Modified(f2, path, 5, v.ra);
    var f4 := Modified(f3, path, 6, v.dec);
    var f5 := Modified(f4, path, 8, v.t0);
    var f6 := Modified(f5, path, 9, IntToString(v.bary));
    var f7 := Modified(f6, path, 10, IntToString(v.pts));
    var f8 := Modified(f7, path, 11, v.binTime);
    var f9 := Modified(f8, path, 12, if v.brks then "1" else "0");
    Modified(f9, path, 18, v.analyzedBy)
  }

  /** update_inf's calls are the template edits applied to the copy. */
  lemma UpdatedFilesEdits(files: map<string, seq<string>>, template: string, fileDir: string, v: InfValues)
    ensures var copied, path := Copied(files, template, fileDir, Some(v.filename)), PathJoin(fileDir, v.filename + ".inf");
      UpdatedFiles(files, template, fileDir, v) == EditedFiles(copied, path, TemplateEdits(v), 10)
  {
    var path := PathJoin(fileDir, v.filename + ".inf");
    var f0 := Copied(files, template, fileDir, Some(v.filename));
    var f1 := Modified(f0, path, 1, v.filename);
    var f2 := Modified(f1, path, 4, v.target);
    var f3 := Modified(f2, path, 5, v.ra);
    var f4 := Modified(f3, path, 6, v.dec);
    var f5 := Modified(f4, path, 8, v.t0);
    var f6 := Modified(f5, path, 9, IntToString(v.bary));
    var f7 := Modified(f6, path, 10, IntToString(v.pts));
    var f8 := Modified(f7, path, 11, v.binTime);
    var f9 := Modified(f8, path, 12, if v.brks then "1" else "0");
    var f10 := Modified(f9, path, 18, v.analyzedBy);
    TemplateSteps(path, v, f0, f1, f2, f3, f4, f5, f6, f7, f8, f9, f10);
  }

  /** The states after each of update_inf's calls follow the template edits. */
  lemma TemplateSteps(path: string, v: InfValues, f0: map<string, seq<string>>,
                      f1: map<string, seq<string>>, f2: map<string, seq<string>>, f3: map<string, seq<string>>,
                      f4: map<string, seq<string>>, f5: map<string, seq<string>>, f6: map<string, seq<string>>,
                      f7: map<string, seq<string>>, f8: map<string, seq<string>>, f9: map<string, seq<string>>,
                      f10: map<string, seq<string>>)
    requires f1 == Modified(f0, path, 1, v.filename)
    requires f2 == Modified(f1, path, 4, v.target)
    requires f3 == Modified(f2, path, 5, v.ra)
    requires f4 == Modified(f3, path, 6, v.dec)
    requires f5 == Modified(f4, path, 8, v.t0)
    requires f6 == Modified(f5, path, 9, IntToString(v.bary))
    requires f7 == Modified(f6, path, 10, IntToString(v.pts))
    requires f8 == Modified(f7, path, 11, v.binTime)
    requires f9 == Modified(f8, path, 12, if v.brks then "1" else "0")
    requires f10 == Modified(f9, path, 18, v.analyzedBy)
    ensures f10 == EditedFiles(f0, path, TemplateEdits(v), 10)
  {
    var e := TemplateEdits(v);
    assert e[0] == (1, v.filename);
    assert e[1] == (4, v.target);
    assert e[2] == (5, v.ra);
    assert e[3] == (6, v.dec);
    assert e[4] == (8, v.t0);
    assert e[5] == (9, IntToString(v.bary));
    assert e[6] == (10, IntToString(v.pts));
    assert e[7] == (11, v.binTime);
    assert e[8] == (12, if v.brks then "1" else "0");
    assert e[9] == (18, v.analyzedBy);
    assert f1 == EditedFiles(f0, path, e, 1);
    assert f2 == EditedFiles(f0, path, e, 2);
    assert f3 == EditedFiles(f0, path, e, 3);
    assert f4 == EditedFiles(f0, path, e, 4);
    assert f5 == EditedFiles(f0, path, e, 5);
    assert f6 == EditedFiles(f0, path, e, 6);
    assert f7 == EditedFiles(f0, path, e, 7);
    assert f8 == EditedFiles(f0, path, e, 8);
    assert f9 == EditedFiles(f0, path, e, 9);
    assert f10 == EditedFiles(f0, path, e, 10);
  }


  /** The copy's lines once update_inf is done, when the template can be
      opened and the file name is not empty. */
  lemma UpdatedCopy(files: map<string, seq<string>>, template: string, fileDir: string, v: InfValues)
    requires template in files && |v.filename| > 0
    ensures var path := PathJoin(fileDir, v.filename + ".inf");
      UpdatedFiles(files, template, fileDir, v) == files[path := EditedLines(files[template], TemplateEdits(v), 10)]
  {
    UpdatedFilesEdits(files, template, fileDir, v);
    CopyThenEdit(files, template, fileDir, v.filename, TemplateEdits(v));
  }

  lemma CopyThenEdit(files: map<string, seq<string>>, template: string, fileDir: string, filename: string,
                     edits: seq<(int, string)>)
    requires template in files && |filename| > 0 && |edits| == 10
    ensures var path := PathJoin(fileDir, filename + ".inf");
      EditedFiles(Copied(files, template, fileDir, Some(filename)), path, edits, 10)
        == files[path := EditedLines(files[template], edits, 10)]
  {
    var path := PathJoin(fileDir, filename + ".inf");
    CopiedToPath(files, template, fileDir, filename);
    EditedFilesLines(files[path := files[template]], path, edits, 10);
    UpdateTwice(files, path, files[template], EditedLines(files[template], edits, 10));
  }

  lemma UpdateTwice(m: map<string, seq<string>>, key: string, a: seq<string>, b: seq<string>)
    ensures m[key := a][key := b] == m[key := b]
  {
  }

  /** update_inf writes exactly one file, the copy, with the template's
      number of lines; every other file stays as it was. */
  lemma UpdateInfFiles(files: map<string, seq<string>>, template: string, fileDir: string, v: InfValues)
    requires template in files && |v.filename| > 0
    ensures var r, path := UpdatedFiles(files, template, fileDir, v), PathJoin(fileDir, v.filename + ".inf");
      && r.Keys == files.Keys + {path}
      && (forall p :: p in files && p != path ==> r[p] == files[p])
      && |r[path]| == |files[template]|
  {
    UpdatedCopy(files, template, fileDir, v);
  }

  /** Line j + 1 of the copy: rewritten with the table's value for that
      line number when it holds '=', and the template's line otherwise. */
  lemma UpdateInfLine(files: map<string, seq<string>>, template: string, fileDir: string,
                      v: InfValues, j: int)
    requires template in files && |v.filename| > 0 && 0 <= j < |files[template]|
    ensures var r, path, line := UpdatedFiles(files, template, fileDir, v), PathJoin(fileDir, v.filename + ".inf"), files[template][j];
      && path in r && |r[path]| == |files[template]|
      && r[path][j] == if TemplateValue(v, j + 1).Some? && !Lacks(line, '=')
                       then EditedLine(line, TemplateValue(v, j + 1).value)
                       else line
  {
    UpdatedCopy(files, template, fileDir, v);
    TemplateEditsTable(v, j + 1);
    EditedLinesAt(files[template], TemplateEdits(v), 10, j);
  }

  /** With a non-empty name, the copy goes where update_inf edits it. */
  lemma CopiedToPath(files: map<string, seq<string>>, template: string, fileDir: string, filename: string)
    requires template in files && |filename| > 0
    ensures var copied, path := Copied(files, template, fileDir, Some(filename)), PathJoin(fileDir, filename + ".inf");
      copied == files[path := files[template]]
  {
  }

  /** The copy keeps the shape of a file when the values hold no newline. */
  lemma UpdateInfKeepsShape(files: map<string, seq<string>>, template: string, fileDir: string,
                            v: InfValues)
    requires template in files && |v.filename| > 0 && ReadLines(files[template])
    requires OneLine(v.filename) && OneLine(v.binTime) && OneLine(v.t0)
    requires OneLine(v.target) && OneLine(v.ra) && OneLine(v.dec) && OneLine(v.analyzedBy)
    ensures var copy := UpdatedFiles(files, template, fileDir, v)[PathJoin(fileDir, v.filename + ".inf")];
      ReadLines(copy) && ReadBack(WrittenText(copy)) == copy
  {
    UpdatedCopy(files, template, fileDir, v);
    TemplateValuesOneLine(v);
    EditedLinesKeepShape(files[template], TemplateEdits(v), 10);
    ReadBackWritten(EditedLines(files[template], TemplateEdits(v), 10));
  }

  lemma TemplateValuesOneLine(v: InfValues)
    requires OneLine(v.filename) && OneLine(v.binTime) && OneLine(v.t0)
    requires OneLine(v.target) && OneLine(v.ra) && OneLine(v.dec) && OneLine(v.analyzedBy)
    ensures forall i :: 0 <= i < |TemplateEdits(v)| ==> OneLine(TemplateEdits(v)[i].1)
  {
    var e := TemplateEdits(v);
    NumberHasNoNewline(v.bary);
    NumberHasNoNewline(v.pts);
    forall i | 0 <= i < |e| ensures OneLine(e[i].1) {
      assert i == 0 || i == 1 || i == 2 || i == 3 || i == 4 || i == 5 || i == 6 || i == 7 || i == 8 || i == 9;
    }
  }

  lemma NumberHasNoNewline(n: int)
    ensures OneLine(IntToString(n))
  {
    var s := IntToString(n);
    if n < 0 {
      assert s == "-" + NatToString(-n);
      forall k | 0 <= k < |s| ensures s[k] != '\n' && s[k] != '\r' {
        if k > 0 {
          assert s[k] == NatToString(-n)[k - 1];
        }
      }
    }
  }

  /** The script's files: each path it can open, with its lines. */
  class InfStore {
    var files: map<string, seq<string>>

    constructor (initial: map<string, seq<string>>)
      ensures files == initial
    {
      files := initial;
    }

    /** copy_inf_file: False, and nothing copied, when the source cannot be
        opened. */
    method CopyInfFile(source: string, folder: string, newName: Option<string>) returns (ok: bool)
      modifies this
      ensures ok <==> source in old(files)
      ensures files == Copied(old(files), source, folder, newName)
    {
      if source !in files {
        return false;
      }
      var name := if Given(newName) then newName.value else InfFile.Basename(source);
      var destination := PathJoin(folder, name + ".inf");
      files := files[destination := files[source]];
      return true;
    }

    /** modify_inf_line: False, and nothing written, when the file cannot be
        opened, the line number is out of range or the line has no '='. */
    method ModifyInfLine(path: string, lineNumber: int, value: string) returns (ok: bool)
      modifies this
      ensures ok <==> path in old(files) && LineEdit(old(files)[path], lineNumber, value).Some?
      ensures files == Modified(old(files), path, lineNumber, value)
    {
      if path !in files {
        return false;
      }
      var lines := files[path];
      if lineNumber < 1 || lineNumber > |lines| {
        return false;
      }
      var index := lineNumber - 1;
      if IndexOf(lines[index], '=') < 0 {
        return false;
      }
      var parts := SplitOn(lines[index], '=');
      SplitOnFirst(lines[index], '=');
      if |parts| == 2 {
        lines := lines[index := parts[0] + "=  " + value + "\n"];
      } else if |parts| > 2 {
        var prefix := Join(parts[..|parts| - 1], "=");
        lines := lines[index := prefix + "=  " + value + "\n"];
      } else {
        assert false;
        return false;
      }
      files := files[path := lines];
      return true;
    }

    /** update_inf: copy the template, then the ten line edits on the copy,
        whose results are ignored. */
    method UpdateInf(template: string, fileDir: string, v: InfValues)
      modifies this
      ensures files == UpdatedFiles(old(files), template, fileDir, v)
    {
      var ok := CopyInfFile(template, fileDir, Some(v.filename));
      var infPath := PathJoin(fileDir, v.filename + ".inf");
      ok := ModifyInfLine(infPath, 1, v.filename);
      ok := ModifyInfLine(infPath, 4, v.target);
      ok := ModifyInfLine(infPath, 5, v.ra);
      ok := ModifyInfLine(infPath, 6, v.dec);
      ok := ModifyInfLine(infPath, 8, v.t0);
      ok := ModifyInfLine(infPath, 9, IntToString(v.bary));
      ok := ModifyInfLine(infPath, 10, IntToString(v.pts));
      ok := ModifyInfLine(infPath, 11, v.binTime);
      if v.brks {
        ok := ModifyInfLine(infPath, 12, "1");
      } else {
        ok := ModifyInfLine(infPath, 12, "0");
      }
      ok := ModifyInfLine(infPath, 18, v.analyzedBy);
    }
  }

  /* ---------------- names from the command line ---------------- */

  /** The text before the first c, or all of it when there is none. */
  function Before(s: string, c: char): (r: string)
    ensures |r| <= |s| && Lacks(r, c)
    ensures forall j :: 0 <= j < |r| ==> r[j] == s[j]
    ensures |r| < |s| ==> s[|r|] == c
  {
    var i := IndexOf(s, c);
    if i >= 0 then s[..i] else s
  }

  /** The text after the first c, or nothing when there is none. */
  function After(s: string, c: char): string {
    var i := IndexOf(s, c);
    if i >= 0 then s[i + 1..] else ""
  }

  /** The output filename cut out of the input path: the second '_'-piece
      cut at its first '-', then '_', then the third '_'-piece cut at its
      first '/'; None where the path has fewer than two '_' and indexing the
      split raises IndexError. path is the text str(pathlib.Path(input_file)),
      already normalised. */
  function OutputFilename(path: string): Option<string> {
    var fields := SplitOn(path, '_');
    if |fields| < 3 then None
    else Some(SplitOn(fields[1], '-')[0] + "_" + SplitOn(fields[2], '/')[0])
  }

  /** The filename exists exactly when the path has two '_'; it is the text
      after the first '_' up to the next '_' or '-', an underscore, and the
      text after the second '_' up to the next '_' or '/'. */
  lemma OutputFilenameFields(path: string)
    ensures var t := After(path, '_');
      OutputFilename(path).Some? <==> IndexOf(path, '_') >= 0 && IndexOf(t, '_') >= 0
    ensures var t := After(path, '_'); var u := After(t, '_');
      OutputFilename(path).Some? ==>
        OutputFilename(path).value == Before(Before(t, '_'), '-') + "_" + Before(Before(u, '_'), '/')
  {
    var i := IndexOf(path, '_');
    SplitOnFirst(path, '_');
    if i >= 0 {
      var t := After(path, '_');
      SplitOnAt(path, '_', i);
      SplitOnFirst(t, '_');
      var i2 := IndexOf(t, '_');
      if i2 >= 0 {
        var u := After(t, '_');
        SplitOnAt(t, '_', i2);
        SplitOnFirst(u, '_');
        var fields := SplitOn(path, '_');
        assert fields[1] == Before(t, '_');
        assert fields[2] == Before(u, '_');
        SplitOnFirst(fields[1], '-');
        SplitOnFirst(fields[2], '/');
      }
    }
  }

  /** A path with a single '_', as in the script's usage text, has no
      filename: the script stops with IndexError. */
  lemma UsagePathHasNoFilename(path: string)
    requires path == "data/psrj1231_20220101.fits"
    ensures OutputFilename(path) == None
  {
    IndexOfUnique(path, '_', 13);
    var t := After(path, '_');
    assert t == "20220101.fits";
    assert Lacks(t, '_');
    OutputFilenameFields(path);
  }

  /** A right ascension and declination, as the text the .inf file holds. */
  datatype Coordinates = Coordinates(ra: string, dec: string)

  /** radec_dict: the pulsars the script knows, under lower-case names. */
  const KnownPulsars: map<string, Coordinates> := map[
    "crab" := Coordinates("05:34:31.947", "22:00:52.15"),
    "geminga" := Coordinates("06:33:54.153", "17:46:12.91"),
    "vela" := Coordinates("08:35:20.655", "-45:10:35.15"),
    "psrj1227" := Coordinates("12:27:58.748", "-48:53:42.82"),
    "psrj1023" := Coordinates("10:23:47.684", "00:38:41.01"),
    "psrj0540" := Coordinates("05:40:11.2", "-69:19:54.20"),
    "psrj1823" := Coordinates("18:23:40.484", "-30:21:39.92"),
    "psrj1231" := Coordinates("12:31:11.307", "-14:11:43.63")]

  /** The pulsar name: the argument when given, otherwise the third piece
      from the end of the input path split on '/', which must be a known
      pulsar in some capitalisation; None where the script exits or the path has fewer
      than three pieces and indexing raises IndexError. path is the
      normalised text, as for OutputFilename. */
  function PulsarName(argument: Option<string>, path: string): Option<string> {
    if Given(argument) then Some(argument.value)
    else
      var pieces := SplitOn(path, '/');
      if |pieces| < 3 then None
      else if Lower(pieces[|pieces| - 3]) in KnownPulsars then Some(pieces[|pieces| - 3])
      else None
  }

  /** RA and DEC for the run: the arguments when both are given, otherwise
      the table entry under the lower-cased pulsar name; None where the
      script calls exit(1). */
  function SelectCoordinates(ra: Option<string>, dec: Option<string>, pulsarName: string): (r: Option<Coordinates>)
    ensures Given(ra) && Given(dec) ==> r == Some(Coordinates(ra.value, dec.value))
  {
    if Given(ra) && Given(dec) then Some(Coordinates(ra.value, dec.value))
    else if Lower(pulsarName) in KnownPulsars then Some(KnownPulsars[Lower(pulsarName)])
    else None
  }

  /** Every table name is lower case, so each pulsar is found under its own
      name, in any capitalisation, when RA and DEC are not both given. */
  lemma KnownPulsarsFound(ra: Option<string>, dec: Option<string>, name: string, key: string)
    requires key in KnownPulsars && Lower(name) == Lower(key)
    requires !(Given(ra) && Given(dec))
    ensures SelectCoordinates(ra, dec, name) == Some(KnownPulsars[key])
  {
    LowerKeys(key);
  }

  /** A name that is not in the table, lower-cased, makes the script exit
      unless RA and DEC are both given. */
  lemma UnknownPulsarExits(ra: Option<string>, dec: Option<string>, name: string)
    requires !(Given(ra) && Given(dec)) && Lower(name) !in KnownPulsars
    ensures SelectCoordinates(ra, dec, name) == None
  {
  }

  lemma LowerKeys(key: string)
    requires key in KnownPulsars
    ensures Lower(key) == key
  {
    if key == "crab" || key == "geminga" || key == "vela" {
      assert Lower(key) == key;
    } else {
      assert Lower(key) == key;
    }
  }

  /** A pulsar name read from the path never makes the coordinate lookup
      exit: only a name given as an argument can. */
  lemma PathNameHasCoordinates(ra: Option<string>, dec: Option<string>, path: string)
    requires PulsarName(None, path).Some?
    ensures SelectCoordinates(ra, dec, PulsarName(None, path).value).Some?
  {
  }
}
