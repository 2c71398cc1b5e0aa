/** parse_vals of sum_profiles.py, which turns a range list such as
    "5,8,10-13,17" into the sorted list of the integers it names, and the rule
    that reads one line of the list of .pfd files with its two optional range
    lists of sub-bands and sub-integrations to remove. */
module RangeList {
  import opened Wrappers
  import opened Text

  /** Python raises ValueError. */
  datatype ParseError = ValueError

  /** Sorted without duplicates. */
  predicate Ascending(xs: seq<int>) {
    forall i, j :: 0 <= i < j < |xs| ==> xs[i] < xs[j]
  }

  /** xs lists exactly the members of s. */
  ghost predicate Lists(xs: seq<int>, s: set<int>) {
    forall x :: x in xs <==> x in s
  }

  /** The values one comma-separated item stands for: "lo-hi" when a '-'
      follows the first character, else a single int(); None where the
      unpacking or int() raises ValueError. */
  function ItemValues(item: string): Option<set<int>> {
    if IndexOf(item, '-') > 0 then
      var parts := SplitOn(item, '-');
      if |parts| != 2 then None
      else match (ParseInt(parts[0]), ParseInt(parts[1]))
        case (Some(lo), Some(hi)) => Some(set x | x in Range(lo, hi))
        case _ => None
    else
      match ParseInt(item)
      case Some(v) => Some({v})
      case None => None
  }

  /** range(lo, hi + 1): lo, lo + 1, ..., hi, and nothing when lo > hi. */
  function Range(lo: int, hi: int): (r: seq<int>)
    ensures |r| == if lo > hi then 0 else hi - lo + 1
    ensures forall i :: 0 <= i < |r| ==> r[i] == lo + i
  {
    if lo > hi then [] else seq(hi - lo + 1, i requires 0 <= i <= hi - lo => lo + i)
  }

  /** The range holds exactly the integers from lo to hi. */
  lemma RangeMembers(lo: int, hi: int)
    ensures forall x :: x in Range(lo, hi) <==> lo <= x <= hi
  {
    forall x | lo <= x <= hi ensures x in Range(lo, hi) {
      assert Range(lo, hi)[x - lo] == x;
    }
  }

  /** The values of each item, in order. */
  function Contributions(items: seq<string>): (vs: seq<Option<set<int>>>)
    ensures |vs| == |items|
  {
    seq(|items|, i requires 0 <= i < |items| => ItemValues(items[i]))
  }

  /** The union of the first n contributions; None from the first item that
      raises. */
  function Union(vs: seq<Option<set<int>>>, n: nat): Option<set<int>>
    requires n <= |vs|
  {
    if n == 0 then Some({})
    else match Union(vs, n - 1)
      case None => None
      case Some(acc) =>
        match vs[n - 1]
        case None => None
        case Some(v) => Some(acc + v)
  }

  /** A set other than {} has a member. */
  lemma NonEmptyHasMember(s: set<int>)
    requires s != {}
    ensures exists x :: x in s
  {
    if forall x :: x !in s {
      assert false;
    }
  }

  /** A non-empty set of integers has a least member. */
  lemma {:induction false} SetHasMin(s: set<int>)
    requires s != {}
    ensures exists m :: m in s && forall y :: y in s ==> m <= y
    decreases |s|
  {
    NonEmptyHasMember(s);
    var x :| x in s;
    var rest := s - {x};
    if rest == {} {
      LoneMin(s, x);
    } else {
      SetHasMin(rest);
      var m :| m in rest && forall y :: y in rest ==> m <= y;
      LesserMin(s, x, m);
    }
  }

  lemma LoneMin(s: set<int>, x: int)
    requires x in s && s - {x} == {}
    ensures forall y :: y in s ==> x <= y
  {
    forall y | y in s ensures x <= y {
      assert y == x || y in s - {x};
    }
  }

  lemma LesserMin(s: set<int>, x: int, m: int)
    requires x in s && m in s - {x} && forall y :: y in s - {x} ==> m <= y
    ensures var least := if x < m then x else m;
      least in s && forall y :: y in s ==> least <= y
  {
    forall y | y in s ensures (if x < m then x else m) <= y {
      assert y == x || y in s - {x};
    }
  }

  /** Every finite set of integers has a sorted listing. */
  lemma {:induction false} SortedListingExists(s: set<int>)
    ensures exists xs :: Ascending(xs) && Lists(xs, s)
    decreases |s|
  {
    if s == {} {
      assert Ascending([]) && Lists([], s);
    } else {
      SetHasMin(s);
      var m :| m in s && forall y :: y in s ==> m <= y;
      SortedListingExists(s - {m});
      var xs :| Ascending(xs) && Lists(xs, s - {m});
      var ys := [m] + xs;
      forall i, j | 0 <= i < j < |ys| ensures ys[i] < ys[j] {
        if i > 0 {
          assert ys[i] == xs[i - 1] && ys[j] == xs[j - 1];
        } else {
          assert ys[j] in xs;
        }
      }
      assert Lists(ys, s);
    }
  }

  /** Two sorted listings of one set are equal: sorting a set has one answer. */
  lemma {:induction false} SortedListingUnique(xs: seq<int>, ys: seq<int>, s: set<int>)
    requires Ascending(xs) && Lists(xs, s)
    requires Ascending(ys) && Lists(ys, s)
    ensures xs == ys
    decreases |xs|
  {
    if xs != [] {
      assert xs[0] in xs;
    }
    if ys != [] {
      assert ys[0] in ys;
    }
    if xs != [] && ys != [] {
      assert xs[0] == ys[0] by {
        assert ys[0] in ys && xs[0] in xs;
        assert ys[0] in xs && xs[0] in ys;
        var i :| 0 <= i < |xs| && xs[i] == ys[0];
        var j :| 0 <= j < |ys| && ys[j] == xs[0];
        assert xs[0] <= xs[i] && ys[0] <= ys[j];
      }
      var rest := s - {xs[0]};
      forall x ensures x in xs[1..] <==> x in rest {
        if x in xs[1..] {
          var i :| 1 <= i < |xs| && xs[i] == x;
          assert xs[0] < xs[i];
        }
      }
      forall x ensures x in ys[1..] <==> x in rest {
        if x in ys[1..] {
          var i :| 1 <= i < |ys| && ys[i] == x;
          assert ys[0] < ys[i];
        }
      }
      SortedListingUnique(xs[1..], ys[1..], rest);
      assert xs == [xs[0]] + xs[1..] && ys == [ys[0]] + ys[1..];
    }
  }

  /** sorted(s): the sorted listing of a set of integers. */
  ghost function SortedOf(s: set<int>): (xs: seq<int>)
    ensures Ascending(xs) && Lists(xs, s)
  {
    SortedListingExists(s);
    var xs :| Ascending(xs) && Lists(xs, s); xs
  }

  /** What parse_vals returns: None for the empty string and for one
      character that is not a digit, else the sorted union of the items'
      values, or ValueError. */
  ghost function ParseValsSpec(s: string): Result<Option<seq<int>>, ParseError> {
    if |s| == 0 || (|s| == 1 && !IsDigit(s[0])) then Ok(None)
    else
      var items := SplitOn(s, ',');
      match Union(Contributions(items), |items|)
      case None => Err(ValueError)
      case Some(v) => Ok(Some(SortedOf(v)))
  }

  /** list(vals) followed by sort(): here by taking the least remaining member
      until none is left. */
  method SortSet(s: set<int>) returns (xs: seq<int>)
    ensures xs == SortedOf(s)
  {
    xs := [];
    var rest := s;
    while rest != {}
      invariant Ascending(xs)
      invariant forall x :: x in s <==> x in xs || x in rest
      invariant forall x, y :: x in xs && y in rest ==> x < y
      invariant forall x :: x in xs ==> x !in rest
      decreases |rest|
    {
      SetHasMin(rest);
      var m :| m in rest && forall y :: y in rest ==> m <= y;
      forall i, j | 0 <= i < j < |xs + [m]| ensures (xs + [m])[i] < (xs + [m])[j] {
        if j == |xs| {
          assert xs[i] in xs;
        }
      }
      xs := xs + [m];
      rest := rest - {m};
    }
    SortedListingUnique(xs, SortedOf(s), s);
  }

  /** Once an item raises, the whole list raises. */
  lemma {:induction false} UnionStaysNone(vs: seq<Option<set<int>>>, i: nat, n: nat)
    requires i <= n <= |vs| && Union(vs, i) == None
    ensures Union(vs, n) == None
    decreases n - i
  {
    if i < n {
      UnionStaysNone(vs, i, n - 1);
    }
  }

  lemma UnionStep(vs: seq<Option<set<int>>>, i: nat, acc: set<int>, v: set<int>)
    requires i < |vs| && Union(vs, i) == Some(acc) && vs[i] == Some(v)
    ensures Union(vs, i + 1) == Some(acc + v)
  {
  }

  /** The body of parse_vals' loop for one item: the values it adds. */
  method ParseItem(item: string) returns (r: Option<set<int>>)
    ensures r == ItemValues(item)
  {
    if IndexOf(item, '-') > 0 {
      var parts := SplitOn(item, '-');
      if |parts| != 2 {
        return None;
      }
      var lo, hi := ParseInt(parts[0]), ParseInt(parts[1]);
      if lo.None? || hi.None? {
        return None;
      }
      return Some(set x | x in Range(lo.value, hi.value));
    } else {
      var v := ParseInt(item);
      if v.None? {
        return None;
      }
      return Some({v.value});
    }
  }

  /** The loop of parse_vals: the union of the items' values, gathered in a
      set, or None at the first item that raises. */
  method UnionItems(items: seq<string>) returns (r: Option<set<int>>)
    ensures r == Union(Contributions(items), |items|)
  {
    r := UnionLoop(items, Contributions(items));
  }

  /** That loop over the items, with their values named vs. */
  method UnionLoop(items: seq<string>, ghost vs: seq<Option<set<int>>>) returns (r: Option<set<int>>)
    requires |vs| == |items|
    requires forall k {:trigger ItemValues(items[k])} :: 0 <= k < |items| ==> vs[k] == ItemValues(items[k])
    ensures r == Union(vs, |vs|)
  {
    var vals: set<int> := {};
    var i := 0;
    while i < |items|
      invariant 0 <= i <= |items|
      invariant Union(vs, i) == Some(vals)
    {
      var next := AddItem(vals, items[i], vs, i);
      if next.None? {
        UnionStaysNone(vs, i + 1, |items|);
        return None;
      }
      vals := next.value;
      i := i + 1;
    }
    return Some(vals);
  }

  /** One pass of that loop: vals |= the item's values, or None when the
      item raises. */
  method AddItem(vals: set<int>, item: string, ghost vs: seq<Option<set<int>>>, ghost i: nat)
    returns (r: Option<set<int>>)
    requires i < |vs| && Union(vs, i) == Some(vals) && vs[i] == ItemValues(item)
    ensures r == Union(vs, i + 1)
  {
    var v := ParseItem(item);
    if v.None? {
      return None;
    }
    UnionStep(vs, i, vals, v.value);
    return Some(vals + v.value);
  }

  /** parse_vals: the values are gathered into a set item by item, then sorted. */
  method ParseVals(s: string) returns (r: Result<Option<seq<int>>, ParseError>)
    ensures r == ParseValsSpec(s)
  {
    if |s| == 0 || (|s| == 1 && !IsDigit(s[0])) {
      return Ok(None);
    }
    var vals := UnionItems(SplitOn(s, ','));
    if vals.None? {
      return Err(ValueError);
    }
    var sorted := SortSet(vals.value);
    return Ok(Some(sorted));
  }

  /** The list is read when every item is well formed, and then it holds
      exactly the values some item stands for. */
  lemma {:induction false} UnionOfItems(vs: seq<Option<set<int>>>, n: nat)
    requires n <= |vs|
    ensures Union(vs, n).Some? <==> forall i :: 0 <= i < n ==> vs[i].Some?
    ensures Union(vs, n).Some? ==> forall x ::
      x in Union(vs, n).value <==> exists i :: 0 <= i < n && x in vs[i].value
    decreases n
  {
    if n > 0 {
      UnionOfItems(vs, n - 1);
      if Union(vs, n).Some? {
        var v := Union(vs, n).value;
        forall x ensures x in v <==> exists i :: 0 <= i < n && x in vs[i].value {
          if x in vs[n - 1].value {
            assert x in v;
          }
        }
      }
    }
  }

  /** "lo-hi" with lo not empty and no other '-' stands for every integer
      from lo to hi, none when lo > hi, and raises when lo or hi is not an
      integer. */
  lemma RangeItem(lo: string, hi: string)
    requires |lo| > 0 && Lacks(lo, '-') && Lacks(hi, '-')
    ensures ItemValues(lo + "-" + hi).Some? <==> ParseInt(lo).Some? && ParseInt(hi).Some?
    ensures ItemValues(lo + "-" + hi).Some? ==> forall x ::
      x in ItemValues(lo + "-" + hi).value <==> ParseInt(lo).value <= x <= ParseInt(hi).value
  {
    var item := lo + "-" + hi;
    assert item == lo + ['-'] + hi;
    IndexOfUnique(item, '-', |lo|);
    SplitOnCons(lo, hi, '-');
    SplitOnWhole(hi, '-');
    if ParseInt(lo).Some? && ParseInt(hi).Some? {
      RangeMembers(ParseInt(lo).value, ParseInt(hi).value);
    }
  }

  /** An item with no '-' after its first character stands for int(item)
      alone; so "-3" stands for -3. */
  lemma SingleItem(item: string)
    requires |item| > 0 && forall j :: 0 < j < |item| ==> item[j] != '-'
    ensures ItemValues(item) == if ParseInt(item).Some? then Some({ParseInt(item).value}) else None
  {
  }

  /** The empty string and one non-digit character give None. */
  lemma ParseValsNone(s: string)
    requires |s| == 0 || (|s| == 1 && !IsDigit(s[0]))
    ensures ParseValsSpec(s) == Ok(None)
  {
  }

  /** The items of the docstring's example. */
  lemma ExampleItems(s: string)
    requires s == "5,8,10-13,17"
    ensures SplitOn(s, ',') == ["5", "8", "10-13", "17"]
  {
    var items := ["5", "8", "10-13", "17"];
    assert Join(items, [',']) == s;
    SplitOnJoin(items, ',');
  }

  /** A one-number item written as str() writes it stands for that number. */
  lemma NumberItem(n: int)
    ensures ItemValues(IntToString(n)) == Some({n})
  {
    var s := IntToString(n);
    ParseIntOfIntToString(n);
    assert forall j :: 0 < j < |s| ==> s[j] != '-';
    SingleItem(s);
  }

  /** "10-13" stands for 10, 11, 12 and 13. */
  lemma ExampleRange(item: string)
    requires item == "10-13"
    ensures ItemValues(item).Some?
    ensures forall x :: x in ItemValues(item).value <==> 10 <= x <= 13
  {
    var lo, hi := IntToString(10), IntToString(13);
    assert item == lo + "-" + hi;
    ParseIntOfIntToString(10);
    ParseIntOfIntToString(13);
    RangeItem(lo, hi);
  }

  /** The values of the docstring's example items. */
  lemma ExampleContributions(items: seq<string>)
    requires items == ["5", "8", "10-13", "17"]
    ensures var vs := Contributions(items);
      && |vs| == 4 && vs[0] == Some({5}) && vs[1] == Some({8}) && vs[3] == Some({17})
      && vs[2].Some? && forall x :: x in vs[2].value <==> 10 <= x <= 13
  {
    assert items[0] == IntToString(5) && items[1] == IntToString(8) && items[3] == IntToString(17);
    NumberItem(5);
    NumberItem(8);
    NumberItem(17);
    ExampleRange(items[2]);
  }

  /** The union of the docstring's example values. */
  lemma ExampleUnion(vs: seq<Option<set<int>>>)
    requires |vs| == 4 && vs[0] == Some({5}) && vs[1] == Some({8}) && vs[3] == Some({17})
    requires vs[2].Some? && forall x :: x in vs[2].value <==> 10 <= x <= 13
    ensures Union(vs, 4).Some?
    ensures forall x :: x in Union(vs, 4).value <==> x == 5 || x == 8 || 10 <= x <= 13 || x == 17
  {
    assert Union(vs, 1) == Some({} + {5});
    assert Union(vs, 2) == Some({} + {5} + {8});
    assert Union(vs, 3) == Some({} + {5} + {8} + vs[2].value);
  }

  /** The sorted listing of the docstring's example values. */
  lemma ExampleSorted(v: set<int>)
    requires forall x :: x in v <==> x == 5 || x == 8 || 10 <= x <= 13 || x == 17
    ensures SortedOf(v) == [5, 8, 10, 11, 12, 13, 17]
  {
    var xs := [5, 8, 10, 11, 12, 13, 17];
    assert Lists(xs, v);
    SortedListingUnique(xs, SortedOf(v), v);
  }

  /** The example of the docstring: "5,8,10-13,17" gives [5, 8, 10, 11, 12, 13, 17]. */
  lemma DocstringExample(s: string)
    requires s == "5,8,10-13,17"
    ensures ParseValsSpec(s) == Ok(Some([5, 8, 10, 11, 12, 13, 17]))
  {
    ExampleItems(s);
    ExampleContributions(SplitOn(s, ','));
    ExampleUnion(Contributions(SplitOn(s, ',')));
    ExampleSorted(Union(Contributions(SplitOn(s, ',')), 4).value);
  }

  /** A leading '-' is a sign: "-3" gives [-3]. */
  lemma NegativeExample(s: string)
    requires s == "-3"
    ensures ParseValsSpec(s) == Ok(Some([-3]))
  {
    assert s == IntToString(-3);
    SplitOnWhole(s, ',');
    NumberItem(-3);
    var vs := Contributions([s]);
    assert vs[0] == Some({-3});
    assert Union(vs, 1) == Some({} + {-3});
    assert {} + {-3} == {-3};
    SortedListingUnique([-3], SortedOf({-3}), {-3});
  }

  /** An empty item raises ValueError: "5,,6". */
  lemma EmptyItemExample(s: string)
    requires s == "5,,6"
    ensures ParseValsSpec(s) == Err(ValueError)
  {
    var items := ["5", "", "6"];
    assert Join(items, [',']) == s;
    SplitOnJoin(items, ',');
    assert Strip("") == "";
    var vs := Contributions(items);
    assert vs[1] == None;
    UnionStaysNone(vs, 2, 3);
  }

  /** A second '-' raises ValueError: "1-2-3". */
  lemma ExtraDashExample(s: string)
    requires s == "1-2-3"
    ensures ParseValsSpec(s) == Err(ValueError)
  {
    assert Join(["1", "2", "3"], ['-']) == s;
    SplitOnJoin(["1", "2", "3"], '-');
    SplitOnWhole(s, ',');
    assert s[1] == '-' && s[0] != '-';
    IndexOfUnique(s, '-', 1);
    assert ItemValues(s) == None;
  }

  /* ---------------- the list of .pfd files ---------------- */

  /** One line kept from the list: the .pfd file name and the sub-bands and
      sub-integrations to remove, as parse_vals returned them. */
  datatype ProfileEntry = ProfileEntry(name: string, killsubs: Option<seq<int>>, killints: Option<seq<int>>)

  /** Why reading the list stops: a line without words (sline[0] raises
      IndexError) or a range list that raises ValueError. */
  datatype ListError = MissingName | BadRange

  /** What one line of the list gives: nothing for a line starting with '#',
      else its first word as the file name followed by the range lists in the
      second and third words, when present. */
  ghost function LineEntry(line: string): Result<Option<ProfileEntry>, ListError> {
    if StartsWith(line, "#") then Ok(None)
    else
      var words := SplitWhitespace(line);
      if |words| == 0 then Err(MissingName)
      else if |words| == 1 then Ok(Some(ProfileEntry(words[0], None, None)))
      else
        match ParseValsSpec(words[1])
        case Err(_) => Err(BadRange)
        case Ok(subs) =>
          if |words| == 2 then Ok(Some(ProfileEntry(words[0], subs, None)))
          else
            match ParseValsSpec(words[2])
            case Err(_) => Err(BadRange)
            case Ok(ints) => Ok(Some(ProfileEntry(words[0], subs, ints)))
  }

  /** What each line of the list gives, in order. */
  ghost function LineResults(lines: seq<string>): (rs: seq<Result<Option<ProfileEntry>, ListError>>)
    ensures |rs| == |lines|
    ensures forall k {:trigger LineEntry(lines[k])} :: 0 <= k < |lines| ==> rs[k] == LineEntry(lines[k])
  {
    seq(|lines|, k requires 0 <= k < |lines| => LineEntry(lines[k]))
  }

  /** The entries of the first n line results whose file exists; the first
      error stops the reading. */
  ghost function Collected(rs: seq<Result<Option<ProfileEntry>, ListError>>, existing: set<string>, n: nat): Result<seq<ProfileEntry>, ListError>
    requires n <= |rs|
  {
    if n == 0 then Ok([])
    else
      match Collected(rs, existing, n - 1)
      case Err(e) => Err(e)
      case Ok(entries) =>
        match rs[n - 1]
        case Err(e) => Err(e)
        case Ok(None) => Ok(entries)
        case Ok(Some(entry)) => if entry.name in existing then Ok(entries + [entry]) else Ok(entries)
  }

  /** What reading the whole list gives. */
  ghost function ProfilesList(lines: seq<string>, existing: set<string>): Result<seq<ProfileEntry>, ListError> {
    Collected(LineResults(lines), existing, |lines|)
  }

  /** Once a line fails, the reading has failed with that error. */
  lemma {:induction false} CollectedStaysErr(rs: seq<Result<Option<ProfileEntry>, ListError>>, existing: set<string>, i: nat, n: nat)
    requires i <= n <= |rs| && Collected(rs, existing, i).Err?
    ensures Collected(rs, existing, n) == Collected(rs, existing, i)
    decreases n - i
  {
    if i < n {
      CollectedStaysErr(rs, existing, i, n - 1);
    }
  }

  /** The body of the loop over the list file for one line. */
  method ReadLine(line: string) returns (r: Result<Option<ProfileEntry>, ListError>)
    ensures r == LineEntry(line)
  {
    if StartsWith(line, "#") {
      return Ok(None);
    }
    var words := SplitWhitespace(line);
    if |words| == 0 {
      return Err(MissingName);
    }
    var subs: Option<seq<int>> := None;
    var ints: Option<seq<int>> := None;
    if |words| >= 2 {
      var p := ParseVals(words[1]);
      if p.Err? {
        return Err(BadRange);
      }
      subs := p.value;
      if |words| >= 3 {
        var q := ParseVals(words[2]);
        if q.Err? {
          return Err(BadRange);
        }
        ints := q.value;
      }
    }
    return Ok(Some(ProfileEntry(words[0], subs, ints)));
  }

  /** The loop over the list file: os.path.exists is the membership of the
      name in existing; pfdfilenms, killsubss and killintss are the fields of
      the entries. */
  method ReadProfilesList(lines: seq<string>, existing: set<string>) returns (r: Result<seq<ProfileEntry>, ListError>)
    ensures r == ProfilesList(lines, existing)
  {
    r := ReadLoop(lines, existing, LineResults(lines));
  }

  /** That loop, with the lines' results named rs. */
  method ReadLoop(lines: seq<string>, existing: set<string>, ghost rs: seq<Result<Option<ProfileEntry>, ListError>>)
    returns (r: Result<seq<ProfileEntry>, ListError>)
    requires |rs| == |lines|
    requires forall k {:trigger LineEntry(lines[k])} :: 0 <= k < |lines| ==> rs[k] == LineEntry(lines[k])
    ensures r == Collected(rs, existing, |rs|)
  {
    var entries: seq<ProfileEntry> := [];
    var i := 0;
    while i < |lines|
      invariant 0 <= i <= |lines|
      invariant Collected(rs, existing, i) == Ok(entries)
    {
      var e := ReadLine(lines[i]);
      assert rs[i] == e;
      if e.Err? {
        CollectedStaysErr(rs, existing, i + 1, |lines|);
        return Err(e.error);
      }
      if e.value.Some? && e.value.value.name in existing {
        entries := entries + [e.value.value];
      }
      i := i + 1;
    }
    return Ok(entries);
  }

  /** Every kept entry names an existing file, and there is at most one
      entry per line. */
  lemma {:induction false} CollectedKept(rs: seq<Result<Option<ProfileEntry>, ListError>>, existing: set<string>, n: nat)
    requires n <= |rs|
    ensures Collected(rs, existing, n).Ok? ==>
      && |Collected(rs, existing, n).value| <= n
      && forall j :: 0 <= j < |Collected(rs, existing, n).value| ==>
           Collected(rs, existing, n).value[j].name in existing
    decreases n
  {
    if n > 0 {
      CollectedKept(rs, existing, n - 1);
    }
  }

  /** A line written as its words separated by spaces reads back with the
      first word as the file name, no range list beyond the words present,
      and the range lists parsed from the second and third words. */
  lemma LineOfWords(words: seq<string>)
    requires |words| >= 1 && forall i :: 0 <= i < |words| ==> IsWord(words[i])
    requires |words[0]| > 0 && words[0][0] != '#'
    ensures var e := LineEntry(Join(words, " "));
      && (e.Ok? <==> (|words| >= 2 ==> ParseValsSpec(words[1]).Ok?) && (|words| >= 3 ==> ParseValsSpec(words[2]).Ok?))
      && (e.Ok? ==>
            && e.value.Some? && e.value.value.name == words[0]
            && e.value.value.killsubs == (if |words| >= 2 then ParseValsSpec(words[1]).value else None)
            && e.value.value.killints == (if |words| >= 3 then ParseValsSpec(words[2]).value else None))
  {
    JoinedLine(words);
    EntryOfWords(Join(words, " "), words);
  }

  /** The line written from the words does not start with '#' and splits back
      into the words. */
  lemma JoinedLine(words: seq<string>)
    requires |words| >= 1 && forall i :: 0 <= i < |words| ==> IsWord(words[i])
    requires |words[0]| > 0 && words[0][0] != '#'
    ensures !StartsWith(Join(words, " "), "#") && SplitWhitespace(Join(words, " ")) == words
  {
    SplitWhitespaceJoin(words);
    var line := Join(words, " ");
    if |words| == 1 {
      assert line == words[0];
    } else {
      JoinCons(words[0], words[1..], " ");
      assert words == [words[0]] + words[1..];
    }
    assert line[0] == words[0][0];
  }

  /** LineEntry of a line that is not a comment, by its words. */
  lemma EntryOfWords(line: string, words: seq<string>)
    requires !StartsWith(line, "#") && SplitWhitespace(line) == words && |words| >= 1
    ensures var e := LineEntry(line);
      && (e.Ok? <==> (|words| >= 2 ==> ParseValsSpec(words[1]).Ok?) && (|words| >= 3 ==> ParseValsSpec(words[2]).Ok?))
      && (e.Ok? ==>
            && e.value.Some? && e.value.value.name == words[0]
            && e.value.value.killsubs == (if |words| >= 2 then ParseValsSpec(words[1]).value else None)
            && e.value.value.killints == (if |words| >= 3 then ParseValsSpec(words[2]).value else None))
  {
  }
}
