/** Deriving a symbol name from a raw data file path: the path's stem, cut at
    the first double underscore (`Path(fn).stem.split("__")[0]`). */
module SymbolName {

  /** True when a separator "__" starts at position `i` of `s`. */
  predicate SepAt(s: string, i: int)
  {
    0 <= i && i + 1 < |s| && s[i] == '_' && s[i + 1] == '_'
  }

  /** The position of the first separator at or after `from`, or `|s|` when
      there is none: Python's `str.find("__", from)` with -1 read as `|s|`. */
  function FindSep(s: string, from: nat): (k: nat)
    requires from <= |s|
    requires forall i :: 0 <= i < from ==> !SepAt(s, i)
    ensures from <= k <= |s|
    ensures forall i :: 0 <= i < k ==> !SepAt(s, i)
    ensures k < |s| ==> SepAt(s, k)
    decreases |s| - from
  {
    if from + 1 >= |s| then |s|
    else if SepAt(s, from) then from
    else FindSep(s, from + 1)
  }

  /** Python's `s.split("__")`: the pieces between non-overlapping separators,
      scanning from the left. */
  function SplitOnSep(s: string): (pieces: seq<string>)
    ensures |pieces| >= 1 && pieces[0] <= s
    decreases |s|
  {
    var k := FindSep(s, 0);
    if k == |s| then [s]
    else [s[..k]] + SplitOnSep(s[k + 2..])
  }

  /** Python's `"__".join(pieces)`. */
  function Join(pieces: seq<string>): string
  {
    if |pieces| == 0 then ""
    else if |pieces| == 1 then pieces[0]
    else pieces[0] + "__" + Join(pieces[1..])
  }

  /** The last component of a slash-separated path (`Path(fn).name`). */
  function FileName(path: string): (name: string)
    ensures |name| <= |path| && path[|path| - |name|..] == name
    ensures forall i :: 0 <= i < |name| ==> name[i] != '/'
    ensures |name| < |path| ==> path[|path| - |name| - 1] == '/'
    decreases |path|
  {
    if |path| == 0 then ""
    else if path[|path| - 1] == '/' then ""
    else FileName(path[..|path| - 1]) + [path[|path| - 1]]
  }

  /** `Path.stem`: the name without its last suffix, where a suffix is the
      text from the last '.' provided that dot is neither the first nor the
      last character of the name. */
  function Stem(name: string): (stem: string)
    ensures stem <= name
    ensures |stem| < |name| ==>
      0 < |stem| < |name| - 1 && name[|stem|] == '.' &&
      forall i :: |stem| < i < |name| ==> name[i] != '.'
  {
    var d := LastDot(name);
    if 0 < d < |name| - 1 then name[..d] else name
  }

  /** `name.rfind('.')`, with -1 for "no dot". */
  function LastDot(name: string): (d: int)
    ensures -1 <= d < |name|
    ensures d >= 0 ==> name[d] == '.'
    ensures forall i :: d < i < |name| ==> name[i] != '.'
    decreases |name|
  {
    if |name| == 0 then -1
    else if name[|name| - 1] == '.' then |name| - 1
    else LastDot(name[..|name| - 1])
  }

  /** The symbol name of a stem: the text before its first "__". */
  function SymbolOfStem(stem: string): (sym: string)
  {
    SplitOnSep(stem)[0]
  }

  /** `infer_stock_name_from_filename`. */
  function InferStockName(path: string): (sym: string)
    ensures sym <= Stem(FileName(path))
    ensures |sym| == |Stem(FileName(path))| || SepAt(Stem(FileName(path)), |sym|)
  {
    SymbolOfStem(Stem(FileName(path)))
  }

  /** The symbol is the prefix of the stem that ends at the first "__":
      it is a prefix, no separator starts inside it (not even one that
      straddles its end), and it is either the whole stem or followed by
      "__". */
  lemma SymbolIsPrefixBeforeFirstSep(stem: string)
    ensures SymbolOfStem(stem) <= stem
    ensures forall i :: 0 <= i < |SymbolOfStem(stem)| ==> !SepAt(stem, i)
    ensures |SymbolOfStem(stem)| == |stem| || SepAt(stem, |SymbolOfStem(stem)|)
  {
  }

  /** The symbol never contains "__". */
  lemma SymbolHasNoSep(stem: string)
    ensures forall i :: !SepAt(SymbolOfStem(stem), i)
  {
    var sym := SymbolOfStem(stem);
    SymbolIsPrefixBeforeFirstSep(stem);
    forall i ensures !SepAt(sym, i) {
      if SepAt(sym, i) {
        assert SepAt(stem, i);
      }
    }
  }

  /** A stem without "__" is its own symbol name. */
  lemma SymbolOfPlainStem(stem: string)
    requires forall i :: !SepAt(stem, i)
    ensures SymbolOfStem(stem) == stem
  {
  }

  /** The three properties above pin the symbol down: any prefix meeting
      them is the symbol. */
  lemma SymbolUnique(stem: string, p: string)
    requires p <= stem
    requires forall i :: 0 <= i < |p| ==> !SepAt(stem, i)
    requires |p| == |stem| || SepAt(stem, |p|)
    ensures p == SymbolOfStem(stem)
  {
    var sym := SymbolOfStem(stem);
    SymbolIsPrefixBeforeFirstSep(stem);
    assert |p| <= |sym| by {
      assert |sym| < |stem| ==> SepAt(stem, |sym|);
    }
    assert |sym| <= |p| by {
      assert |p| < |stem| ==> SepAt(stem, |p|);
    }
  }

  /** Splitting on "__" and joining the pieces back gives the original. */
  lemma {:induction false} JoinSplit(s: string)
    ensures Join(SplitOnSep(s)) == s
    decreases |s|
  {
    var k := FindSep(s, 0);
    if k < |s| {
      var rest := s[k + 2..];
      JoinSplit(rest);
      var tail := SplitOnSep(rest);
      assert SplitOnSep(s) == [s[..k]] + tail;
      assert |tail| >= 1;
      assert Join(SplitOnSep(s)) == s[..k] + "__" + Join(tail);
      assert s == s[..k] + "__" + rest;
    }
  }

  /** No piece of a split contains the separator. */
  lemma {:induction false} SplitPiecesHaveNoSep(s: string)
    ensures forall j, i :: 0 <= j < |SplitOnSep(s)| ==> !SepAt(SplitOnSep(s)[j], i)
    decreases |s|
  {
    var k := FindSep(s, 0);
    var pieces := SplitOnSep(s);
    if k == |s| {
      assert pieces == [s];
    } else {
      SplitPiecesHaveNoSep(s[k + 2..]);
      forall j, i | 0 <= j < |pieces| ensures !SepAt(pieces[j], i) {
        if j == 0 {
          assert pieces[0] == s[..k];
          assert SepAt(pieces[0], i) ==> SepAt(s, i) && i < k;
        } else {
          assert pieces[j] == SplitOnSep(s[k + 2..])[j - 1];
        }
      }
    }
  }

  /** The stem of a name with a real suffix drops exactly that suffix. */
  lemma StemDropsSuffix(base: string, ext: string)
    requires |base| > 0 && |ext| > 0
    requires forall i :: 0 <= i < |ext| ==> ext[i] != '.'
    ensures Stem(base + "." + ext) == base
  {
    var name := base + "." + ext;
    var d := LastDot(name);
    assert name[|base|] == '.';
    assert forall i :: |base| < i < |name| ==> name[i] == ext[i - |base| - 1];
    assert d == |base|;
    assert name[..d] == base;
  }

  /** The name of a path inside a directory is the part after the last
      slash. */
  lemma {:induction false} FileNameAfterSlash(dir: string, name: string)
    requires forall i :: 0 <= i < |name| ==> name[i] != '/'
    ensures FileName(dir + "/" + name) == name
    decreases |name|
  {
    var path := dir + "/" + name;
    if |name| > 0 {
      var init := name[..|name| - 1];
      FileNameAfterSlash(dir, init);
      assert path[..|path| - 1] == dir + "/" + init;
      assert path[|path| - 1] == name[|name| - 1];
      assert init + [name[|name| - 1]] == name;
    } else {
      assert path[|path| - 1] == '/';
    }
  }

  /** The symbol of the file `dir/stem.ext` is the symbol of `stem`. */
  lemma InferStockNameOfFile(dir: string, stem: string, ext: string)
    requires |stem| > 0 && |ext| > 0
    requires forall i :: 0 <= i < |stem| ==> stem[i] != '/'
    requires forall i :: 0 <= i < |ext| ==> ext[i] != '/' && ext[i] != '.'
    ensures InferStockName(dir + "/" + stem + "." + ext) == SymbolOfStem(stem)
  {
    var name := stem + "." + ext;
    assert forall i :: 0 <= i < |name| ==> name[i] != '/' by {
      assert forall i :: |stem| < i < |name| ==> name[i] == ext[i - |stem| - 1];
    }
    FileNameAfterSlash(dir, name);
    assert dir + "/" + stem + "." + ext == dir + "/" + name;
    StemDropsSuffix(stem, ext);
  }

  /** A concrete file of the raw data directories: the symbol is the text
      before the date part of the stem. */
  lemma InferStockNameExample(path: string)
    requires path == "data/raw/v0/AAPL__2024_01.csv"
    ensures InferStockName(path) == "AAPL"
  {
    var dir, stem, ext := "data/raw/v0", "AAPL__2024_01", "csv";
    assert path == dir + "/" + stem + "." + ext;
    InferStockNameOfFile(dir, stem, ext);
    SymbolOfExample(stem);
  }

  lemma SymbolOfExample(stem: string)
    requires stem == "AAPL__2024_01"
    ensures SymbolOfStem(stem) == "AAPL"
  {
    assert stem[..4] == "AAPL";
    assert !SepAt(stem, 0) && !SepAt(stem, 1) && !SepAt(stem, 2) && !SepAt(stem, 3);
    assert SepAt(stem, 4);
    SymbolUnique(stem, "AAPL");
  }
}
