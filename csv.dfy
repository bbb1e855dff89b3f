/** The comma-separated option lists of the tool editor: Python's `str.strip()`,
    `str.split(",")` and `", ".join(...)` on strings, and `normalize_options`,
    which turns an editor cell into a list of trimmed, non-empty options. */
module Csv {

  /** The characters Python's `str.isspace()` accepts, which `str.strip()` removes. */
  predicate IsSpace(c: char)
  {
    || c == ' '
    || ('\t' <= c <= '\r')
    || ('\U{1C}' <= c <= '\U{1F}')
    || c == '\U{85}' || c == '\U{A0}' || c == '\U{1680}'
    || ('\U{2000}' <= c <= '\U{200A}')
    || c == '\U{2028}' || c == '\U{2029}' || c == '\U{202F}' || c == '\U{205F}' || c == '\U{3000}'
  }

  /** Neither starts nor ends with whitespace. */
  predicate IsTrimmed(s: string)
  {
    s == [] || (!IsSpace(s[0]) && !IsSpace(s[|s| - 1]))
  }

  /** `s` without its leading whitespace: the longest suffix that does not start with a space. */
  function StripLeft(s: string): (r: string)
    ensures |r| <= |s| && r == s[|s| - |r|..]
    ensures r == [] || !IsSpace(r[0])
    ensures forall i :: 0 <= i < |s| - |r| ==> IsSpace(s[i])
  {
    if s != [] && IsSpace(s[0]) then StripLeft(s[1..]) else s
  }

  /** `s` without its trailing whitespace: the longest prefix that does not end with a space. */
  function StripRight(s: string): (r: string)
    ensures |r| <= |s| && r == s[..|r|]
    ensures r == [] || !IsSpace(r[|r| - 1])
    ensures forall i :: |r| <= i < |s| ==> IsSpace(s[i])
  {
    if s != [] && IsSpace(s[|s| - 1]) then StripRight(s[..|s| - 1]) else s
  }

  /** Python's `s.strip()`. */
  function Strip(s: string): (r: string)
    ensures IsTrimmed(r)
    ensures forall c :: c in r ==> c in s
    ensures IsTrimmed(s) ==> r == s
  {
    StripWithin(s);
    StripRight(StripLeft(s))
  }

  lemma StripWithin(s: string)
    ensures IsTrimmed(StripRight(StripLeft(s)))
    ensures forall c :: c in StripRight(StripLeft(s)) ==> c in s
    ensures IsTrimmed(s) ==> StripRight(StripLeft(s)) == s
  {
    var l := StripLeft(s);
    var r := StripRight(l);
    assert IsTrimmed(r) by {
      assert r != [] ==> r[0] == l[0];
    }
    assert forall c :: c in r ==> c in s by {
      var a := |s| - |l|;
      assert r == s[a..a + |r|];
    }
    if IsTrimmed(s) && s != [] {
      assert l == s;
    }
  }

  /** Stripping leaves nothing exactly when the string is all whitespace. */
  lemma StripBlank(s: string)
    ensures Strip(s) == [] <==> forall i :: 0 <= i < |s| ==> IsSpace(s[i])
  {
    var l := StripLeft(s);
    assert l != [] ==> l[0] == s[|s| - |l|];
  }

  /** Python's `s.split(",")`: the pieces between commas, at least one, none holding a comma. */
  function Split(s: string): (r: seq<string>)
    ensures |r| >= 1
    ensures forall k :: 0 <= k < |r| ==> ',' !in r[k]
  {
    if s == [] then [""]
    else if s[0] == ',' then [""] + Split(s[1..])
    else
      var t := Split(s[1..]);
      [[s[0]] + t[0]] + t[1..]
  }

  /** The total length of the items. */
  function TotalLength(xs: seq<string>): nat
  {
    if xs == [] then 0 else |xs[0]| + TotalLength(xs[1..])
  }

  /** Python's `sep.join(xs)`: every item once, in order, with one separator between
      neighbours. */
  function Join(xs: seq<string>, sep: string): (r: string)
    ensures |r| == TotalLength(xs) + (if xs == [] then 0 else (|xs| - 1) * |sep|)
    ensures xs != [] ==> |xs[0]| <= |r| && r[..|xs[0]|] == xs[0]
  {
    if |xs| == 0 then ""
    else if |xs| == 1 then xs[0]
    else xs[0] + sep + Join(xs[1..], sep)
  }

  /** The list branch of `normalize_options`: every item stripped, empty ones dropped, order kept. */
  function NormalizeOptionList(items: seq<string>): (r: seq<string>)
    ensures |r| <= |items|
    ensures forall k :: 0 <= k < |r| ==> r[k] != "" && IsTrimmed(r[k])
  {
    if items == [] then []
    else
      var t := Strip(items[0]);
      (if t == "" then [] else [t]) + NormalizeOptionList(items[1..])
  }

  /** `normalize_options` on an editor cell: an empty cell gives no options; otherwise the
      cell is split on commas and every piece is stripped, dropping the empty ones. */
  function NormalizeOptions(csv: string): (r: seq<string>)
    ensures csv == "" ==> r == []
    ensures forall k :: 0 <= k < |r| ==> r[k] != "" && IsTrimmed(r[k]) && ',' !in r[k]
  {
    if csv == "" then []
    else
      NormalizeCommaFree(Split(csv));
      NormalizeOptionList(Split(csv))
  }

  /** Stripping adds no character, so comma-free items give comma-free options. */
  lemma {:induction false} NormalizeCommaFree(items: seq<string>)
    requires forall j :: 0 <= j < |items| ==> ',' !in items[j]
    ensures forall k :: 0 <= k < |NormalizeOptionList(items)| ==> ',' !in NormalizeOptionList(items)[k]
  {
    if items != [] {
      NormalizeCommaFree(items[1..]);
      var t := Strip(items[0]);
      assert ',' !in t;
    }
  }

  /** How a list of options is written into an editor cell. */
  function JoinOptions(xs: seq<string>): string
  {
    Join(xs, ", ")
  }

  /** An option that survives being written into a cell and read back: non-empty,
      trimmed and free of commas. */
  predicate CsvSafe(x: string)
  {
    x != "" && IsTrimmed(x) && ',' !in x
  }

  /** The pieces of the cell after the first, each with the blank that ", " leaves in front. */
  function Padded(ys: seq<string>): seq<string>
  {
    seq(|ys|, i requires 0 <= i < |ys| => " " + ys[i])
  }

  lemma {:induction false} SplitCommaFree(a: string)
    requires ',' !in a
    ensures Split(a) == [a]
  {
    if a != [] {
      SplitCommaFree(a[1..]);
      assert [a[0]] + a[1..] == a;
    }
  }

  lemma {:induction false} SplitAfterComma(a: string, b: string)
    requires ',' !in a
    ensures Split(a + "," + b) == [a] + Split(b)
  {
    var s := a + "," + b;
    if a == [] {
      assert s[1..] == b;
    } else {
      assert s[0] == a[0] && s[1..] == a[1..] + "," + b;
      SplitAfterComma(a[1..], b);
      assert [a[0]] + a[1..] == a;
    }
  }

  /** Splitting `p` followed by the ", "-join of comma-free pieces on commas gives back
      the pieces, the first prefixed by `p` and the others by a blank. */
  lemma {:induction false} SplitJoined(p: string, xs: seq<string>)
    requires |xs| >= 1 && ',' !in p
    requires forall k :: 0 <= k < |xs| ==> ',' !in xs[k]
    ensures Split(p + Join(xs, ", ")) == [p + xs[0]] + Padded(xs[1..])
    decreases |xs|
  {
    if |xs| == 1 {
      SplitCommaFree(p + xs[0]);
    } else {
      var rest := Join(xs[1..], ", ");
      assert p + Join(xs, ", ") == (p + xs[0]) + "," + (" " + rest);
      SplitAfterComma(p + xs[0], " " + rest);
      SplitJoined(" ", xs[1..]);
      assert [" " + xs[1]] + Padded(xs[2..]) == Padded(xs[1..]);
    }
  }

  lemma StripPadded(x: string)
    requires IsTrimmed(x)
    ensures Strip(" " + x) == x
  {
    assert (" " + x)[1..] == x;
  }

  /** The first item is stripped and kept unless it is blank; the rest is read on its own. */
  lemma NormalizeFront(x: string, ys: seq<string>)
    ensures NormalizeOptionList([x] + ys) == (if Strip(x) == "" then [] else [Strip(x)]) + NormalizeOptionList(ys)
  {
    assert ([x] + ys)[0] == x && ([x] + ys)[1..] == ys;
  }

  lemma {:induction false} NormalizePadded(ys: seq<string>)
    requires forall k :: 0 <= k < |ys| ==> CsvSafe(ys[k])
    ensures NormalizeOptionList(Padded(ys)) == ys
  {
    if ys != [] {
      var rest := Padded(ys[1..]);
      assert Padded(ys) == [" " + ys[0]] + rest;
      StripPadded(ys[0]);
      NormalizeFront(" " + ys[0], rest);
      NormalizePadded(ys[1..]);
      assert [ys[0]] + ys[1..] == ys;
    }
  }

  /** The cell holding CSV-safe options splits into the first option and the others,
      each preceded by a blank. */
  lemma SplitOptions(xs: seq<string>)
    requires |xs| >= 1 && forall k :: 0 <= k < |xs| ==> CsvSafe(xs[k])
    ensures Split(JoinOptions(xs)) == [xs[0]] + Padded(xs[1..])
  {
    SplitJoined("", xs);
    assert "" + JoinOptions(xs) == JoinOptions(xs) && "" + xs[0] == xs[0];
  }

  /** A cell whose first piece is not empty is not empty. */
  lemma NonEmptyCell(cell: string)
    requires Split(cell)[0] != ""
    ensures cell != ""
  {
    assert Split("") == [""];
  }

  /** A non-empty cell is read by splitting it and normalising the pieces. */
  lemma NormalizeCell(csv: string)
    requires csv != ""
    ensures NormalizeOptions(csv) == NormalizeOptionList(Split(csv))
  {
  }

  /** Writing CSV-safe options into a cell and normalising the cell gives the same
      options back, in the same order. */
  lemma OptionsRoundTrip(xs: seq<string>)
    requires forall k :: 0 <= k < |xs| ==> CsvSafe(xs[k])
    ensures NormalizeOptions(JoinOptions(xs)) == xs
  {
    if xs != [] {
      var cell := JoinOptions(xs);
      SplitOptions(xs);
      NormalizeFront(xs[0], Padded(xs[1..]));
      NormalizePadded(xs[1..]);
      assert [xs[0]] + xs[1..] == xs;
      NonEmptyCell(cell);
      NormalizeCell(cell);
    }
  }

  /** Normalising a cell is stable: writing the normalised options back and normalising
      again changes nothing. */
  lemma NormalizeIdempotent(csv: string)
    ensures NormalizeOptions(JoinOptions(NormalizeOptions(csv))) == NormalizeOptions(csv)
  {
    OptionsRoundTrip(NormalizeOptions(csv));
  }

  /** A kept piece, a blank piece and a padded piece read as the two kept options. */
  lemma NormalizeKeptBlankPadded(x: string, y: string, z: string)
    requires CsvSafe(x) && Strip(y) == "" && CsvSafe(z)
    ensures NormalizeOptionList([x, y, " " + z]) == [x, z]
  {
    var last := [" " + z];
    assert NormalizeOptionList(last) == [z] by {
      StripPadded(z);
      NormalizeFront(" " + z, []);
      assert [" " + z] + [] == last;
    }
    assert NormalizeOptionList([y] + last) == [z] by {
      NormalizeFront(y, last);
    }
    assert NormalizeOptionList([x] + ([y] + last)) == [x, z] by {
      NormalizeFront(x, [y] + last);
    }
    assert [x] + ([y] + last) == [x, y, " " + z];
  }


  /** Blanks around an option and empty pieces between commas are dropped:
      the cell "a,, b" reads as the options "a" and "b". */
  lemma NormalizeExample()
    ensures NormalizeOptions("a,, b") == ["a", "b"]
  {
    var pieces := ["a", "", " " + "b"];
    assert Split("a,, b") == pieces by {
      SplitCommaFree(" b");
      SplitAfterComma("", " b");
      assert ", b" == "" + "," + " b";
      SplitAfterComma("a", ", b");
      assert "a,, b" == "a" + "," + ", b";
    }
    assert NormalizeOptionList(pieces) == ["a", "b"] by {
      NormalizeKeptBlankPadded("a", "", "b");
    }
    NormalizeCell("a,, b");
  }
}
