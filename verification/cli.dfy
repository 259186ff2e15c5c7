/** The symbol parsing and the run summary of stock_data_manager/cli.py: `SymbolsLoader.from_cli`,
    the plain-text branch of `SymbolsLoader.from_file`, and the decisions of `CLI.run` around
    `download_multiple`. */
module Cli {
  import opened Wrappers
  import opened Seqs
  import opened Bars
  import opened Merge
  import opened Config
  import opened StockDataManager

  // ---------------------------------------------------------------------------------------
  // Python's whitespace, `str.strip()` and `str.split()`

  /** The characters `str.isspace()` accepts, which `str.split()` and `str.strip()` (both
      without arguments) treat as whitespace. */
  predicate IsSpace(c: char)
  {
    || '\t' <= c <= '\r'
    || '\U{1c}' <= c <= ' '
    || c == '\U{85}' || c == '\U{a0}' || c == '\U{1680}'
    || '\U{2000}' <= c <= '\U{200a}'
    || c == '\U{2028}' || c == '\U{2029}' || c == '\U{202f}' || c == '\U{205f}' || c == '\U{3000}'
  }

  /** A string without any whitespace. */
  predicate NoSpace(s: string)
  {
    forall k :: 0 <= k < |s| ==> !IsSpace(s[k])
  }

  /** `s.lstrip()`. */
  function TrimStart(s: string): (r: string)
    ensures |r| <= |s| && r == s[|s| - |r|..]
    ensures forall k :: 0 <= k < |s| - |r| ==> IsSpace(s[k])
    ensures |r| > 0 ==> !IsSpace(r[0])
  {
    if |s| > 0 && IsSpace(s[0]) then TrimStart(s[1..]) else s
  }

  /** `s.rstrip()`. */
  function TrimEnd(s: string): (r: string)
    ensures |r| <= |s| && r == s[..|r|]
    ensures forall k :: |r| <= k < |s| ==> IsSpace(s[k])
    ensures |r| > 0 ==> !IsSpace(r[|r| - 1])
  {
    if |s| > 0 && IsSpace(s[|s| - 1]) then TrimEnd(s[..|s| - 1]) else s
  }

  /** `s.strip()`: `s` without the whitespace at either end. It is empty exactly when `s` is
      all whitespace, and otherwise starts and ends with a character that is not whitespace. */
  function Strip(s: string): (r: string)
    ensures |r| <= |s|
    ensures |r| == 0 <==> forall k :: 0 <= k < |s| ==> IsSpace(s[k])
    ensures |r| > 0 ==> !IsSpace(r[0]) && !IsSpace(r[|r| - 1])
  {
    TrimEnd(TrimStart(s))
  }

  /** Everything of `s` before index `i` and from index `j` on is whitespace. */
  predicate SpaceAround(s: string, i: nat, j: nat)
  {
    i <= j <= |s| && (forall k :: 0 <= k < i ==> IsSpace(s[k])) && (forall k :: j <= k < |s| ==> IsSpace(s[k]))
  }

  /** What `strip` removes is whitespace only: the result is a slice of `s` with nothing but
      whitespace before and after it. */
  lemma StripIsSlice(s: string)
    ensures exists i: nat, j: nat :: SpaceAround(s, i, j) && Strip(s) == s[i..j]
  {
    var t := TrimStart(s);
    var r := TrimEnd(t);
    var i := |s| - |t|;
    SpaceAroundSlice(s, t, r, i);
  }

  /** The two trims in terms of slices: `t` is `s` from `i` on with whitespace before it, and
      `r` is a prefix of `t` with whitespace after it. */
  lemma SpaceAroundSlice(s: string, t: string, r: string, i: nat)
    requires i <= |s| && t == s[i..] && forall k :: 0 <= k < i ==> IsSpace(s[k])
    requires |r| <= |t| && r == t[..|r|] && forall k :: |r| <= k < |t| ==> IsSpace(t[k])
    ensures SpaceAround(s, i, i + |r|) && r == s[i..i + |r|]
  {
    forall k | i + |r| <= k < |s|
      ensures IsSpace(s[k])
    {
      assert s[k] == t[k - i];
    }
  }

  lemma StripNoSpace(s: string)
    requires NoSpace(s)
    ensures Strip(s) == s
  {
  }

  /** The length of the word `s` starts with: up to its first whitespace character. */
  function WordLength(s: string): (n: nat)
    ensures n <= |s|
    ensures forall k :: 0 <= k < n ==> !IsSpace(s[k])
    ensures n < |s| ==> IsSpace(s[n])
  {
    if |s| == 0 || IsSpace(s[0]) then 0 else 1 + WordLength(s[1..])
  }

  /** `s.split()`: the maximal runs of characters that are not whitespace, in order. */
  function Split(s: string): seq<string>
    decreases |s|
  {
    if |s| == 0 then []
    else if IsSpace(s[0]) then Split(s[1..])
    else
      var n := WordLength(s);
      [s[..n]] + Split(s[n..])
  }

  /** Every word of a split is non-empty and free of whitespace. */
  lemma {:induction false} SplitWords(s: string)
    ensures forall w :: w in Split(s) ==> |w| > 0 && NoSpace(w)
    decreases |s|
  {
    if |s| > 0 {
      if IsSpace(s[0]) {
        SplitWords(s[1..]);
      } else {
        var n := WordLength(s);
        SplitWords(s[n..]);
        assert Split(s) == [s[..n]] + Split(s[n..]);
      }
    }
  }

  /** A word followed by anything that starts with whitespace has the same length. */
  lemma {:induction false} WordLengthOfConcat(a: string, b: string)
    requires WordLength(a) < |a| || (|b| > 0 && IsSpace(b[0]))
    ensures WordLength(a + b) == WordLength(a)
    decreases |a|
  {
    if |a| > 0 && !IsSpace(a[0]) {
      assert (a + b)[1..] == a[1..] + b;
      WordLengthOfConcat(a[1..], b);
    }
  }

  /** A whitespace character separates: splitting around it splits each side on its own. */
  lemma {:induction false} SplitAtSpace(a: string, c: char, b: string)
    requires IsSpace(c)
    ensures Split(a + [c] + b) == Split(a) + Split(b)
    decreases |a|
  {
    if |a| == 0 {
      assert a + [c] + b == [c] + b;
      assert ([c] + b)[1..] == b;
    } else if IsSpace(a[0]) {
      SplitAtSpace(a[1..], c, b);
      SplitAtLeadingSpace(a, c, b);
    } else {
      SplitAtSpace(a[WordLength(a)..], c, b);
      SplitAtSpaceAfterWord(a, c, b);
    }
  }

  /** The step of `SplitAtSpace` past a leading whitespace character of `a`. */
  lemma SplitAtLeadingSpace(a: string, c: char, b: string)
    requires |a| > 0 && IsSpace(a[0])
    requires Split(a[1..] + [c] + b) == Split(a[1..]) + Split(b)
    ensures Split(a + [c] + b) == Split(a) + Split(b)
  {
    SlicesAround(a, c, b, 1);
  }

  /** The step of `SplitAtSpace` past the word `a` starts with. */
  lemma SplitAtSpaceAfterWord(a: string, c: char, b: string)
    requires IsSpace(c) && |a| > 0 && !IsSpace(a[0])
    requires Split(a[WordLength(a)..] + [c] + b) == Split(a[WordLength(a)..]) + Split(b)
    ensures Split(a + [c] + b) == Split(a) + Split(b)
  {
    var s := a + [c] + b;
    var n := WordLength(a);
    SlicesAround(a, c, b, n);
    WordLengthOfConcat(a, [c] + b);
    SplitAtWord(s);
    SplitAtWord(a);
  }

  /** A string that starts with a word splits into that word and the split of what follows. */
  lemma SplitAtWord(s: string)
    requires |s| > 0 && !IsSpace(s[0])
    ensures Split(s) == [s[..WordLength(s)]] + Split(s[WordLength(s)..])
  {
  }

  /** A single word splits into itself. */
  lemma SplitWord(w: string)
    requires |w| > 0 && NoSpace(w)
    ensures Split(w) == [w]
  {
    WholeWord(w);
    assert w[..|w|] == w;
    assert w[|w|..] == [];
  }

  lemma {:induction false} WholeWord(w: string)
    requires NoSpace(w)
    ensures WordLength(w) == |w|
    decreases |w|
  {
    if |w| > 0 {
      WholeWord(w[1..]);
    }
  }

  /** Two strings that differ only in which whitespace character stands where split alike. */
  lemma {:induction false} SplitSeparatorBlind(s: string, t: string)
    requires |s| == |t|
    requires forall k :: 0 <= k < |s| ==> s[k] == t[k] || (IsSpace(s[k]) && IsSpace(t[k]))
    ensures Split(s) == Split(t)
    decreases |s|
  {
    if |s| > 0 {
      if IsSpace(s[0]) {
        SplitSeparatorBlind(s[1..], t[1..]);
      } else {
        var n := WordLength(s);
        WordLengthAlike(s, t);
        assert s[..n] == t[..n];
        SplitSeparatorBlind(s[n..], t[n..]);
      }
    }
  }

  lemma {:induction false} WordLengthAlike(s: string, t: string)
    requires |s| == |t|
    requires forall k :: 0 <= k < |s| ==> s[k] == t[k] || (IsSpace(s[k]) && IsSpace(t[k]))
    ensures WordLength(s) == WordLength(t)
    decreases |s|
  {
    if |s| > 0 && !IsSpace(s[0]) {
      WordLengthAlike(s[1..], t[1..]);
    }
  }

  // ---------------------------------------------------------------------------------------
  // `SymbolsLoader.from_cli`

  /** The characters that end a symbol on the command line. */
  predicate IsSeparator(c: char)
  {
    c == ',' || IsSpace(c)
  }

  /** `s.replace(",", " ")`. */
  function ReplaceCommas(s: string): (r: string)
    ensures |r| == |s|
    ensures forall k :: 0 <= k < |s| ==> r[k] == (if s[k] == ',' then ' ' else s[k])
  {
    seq(|s|, k requires 0 <= k < |s| => if s[k] == ',' then ' ' else s[k])
  }

  /** `[s.strip() for s in words if s.strip()]`. */
  function StripAll(words: seq<string>): seq<string>
  {
    if |words| == 0 then []
    else
      var w := Strip(words[0]);
      (if |w| > 0 then [w] else []) + StripAll(words[1..])
  }

  /** Words that are already stripped pass through unchanged. */
  lemma {:induction false} StripAllClean(words: seq<string>)
    requires forall w :: w in words ==> |w| > 0 && NoSpace(w)
    ensures StripAll(words) == words
    decreases |words|
  {
    if |words| > 0 {
      assert words[0] in words;
      StripNoSpace(words[0]);
      StripAllClean(words[1..]);
      assert StripAll(words) == [words[0]] + StripAll(words[1..]);
    }
  }

  /** `from_cli(symbols_str)`: commas become spaces, the result is split on whitespace and the
      pieces are stripped with empty ones dropped (which, after splitting, changes nothing).
      Every symbol returned is non-empty and holds neither a comma nor whitespace. */
  function FromCli(s: string): (symbols: seq<string>)
    ensures forall x :: x in symbols ==> CliSymbol(x)
  {
    var words := Split(ReplaceCommas(s));
    SplitWords(ReplaceCommas(s));
    StripAllClean(words);
    forall x | x in words
      ensures forall k :: 0 <= k < |x| ==> x[k] != ','
    {
      CommaFree(ReplaceCommas(s), x);
    }
    StripAll(words)
  }

  /** No word of a split string holds a character the string does not hold. */
  lemma CommaFree(s: string, x: string)
    requires forall k :: 0 <= k < |s| ==> s[k] != ','
    requires x in Split(s)
    ensures forall k :: 0 <= k < |x| ==> x[k] != ','
  {
    SplitChars(s);
  }

  lemma {:induction false} SplitChars(s: string)
    ensures forall x, k :: x in Split(s) && 0 <= k < |x| ==> x[k] in s
    decreases |s|
  {
    if |s| > 0 {
      SplitChars(s[1..]);
      if !IsSpace(s[0]) {
        var n := WordLength(s);
        SplitChars(s[n..]);
        assert forall k :: 0 <= k < n ==> s[..n][k] in s;
        assert forall c :: c in s[n..] ==> c in s;
      } else {
        assert forall c :: c in s[1..] ==> c in s;
      }
    }
  }

  /** Commas and whitespace are interchangeable separators: two command lines that differ only
      in which separator stands where give the same symbols. */
  lemma FromCliSeparatorBlind(s: string, t: string)
    requires |s| == |t|
    requires forall k :: 0 <= k < |s| ==> s[k] == t[k] || (IsSeparator(s[k]) && IsSeparator(t[k]))
    ensures FromCli(s) == FromCli(t)
  {
    SplitSeparatorBlind(ReplaceCommas(s), ReplaceCommas(t));
  }

  /** A symbol as `from_cli` returns it: non-empty, without a comma or whitespace. */
  predicate CliSymbol(x: string)
  {
    |x| > 0 && forall k :: 0 <= k < |x| ==> !IsSeparator(x[k])
  }

  /** Symbols written one after another, each pair separated by the given separator. */
  function Join(symbols: seq<string>, separators: seq<char>): string
    requires |symbols| > 0 && |separators| == |symbols| - 1
  {
    if |symbols| == 1 then symbols[0]
    else symbols[0] + [separators[0]] + Join(symbols[1..], separators[1..])
  }

  /** The command line `from_cli` reads back: symbols free of separators, joined by commas or
      whitespace, come back in order, each exactly once. */
  lemma {:induction false} FromCliJoin(symbols: seq<string>, separators: seq<char>)
    requires |symbols| > 0 && |separators| == |symbols| - 1
    requires forall x :: x in symbols ==> CliSymbol(x)
    requires forall k :: 0 <= k < |separators| ==> IsSeparator(separators[k])
    ensures FromCli(Join(symbols, separators)) == symbols
    decreases |symbols|
  {
    SplitJoin(symbols, separators);
    var words := Split(ReplaceCommas(Join(symbols, separators)));
    SplitWords(ReplaceCommas(Join(symbols, separators)));
    StripAllClean(words);
  }

  lemma {:induction false} SplitJoin(symbols: seq<string>, separators: seq<char>)
    requires |symbols| > 0 && |separators| == |symbols| - 1
    requires forall x :: x in symbols ==> CliSymbol(x)
    requires forall k :: 0 <= k < |separators| ==> IsSeparator(separators[k])
    ensures Split(ReplaceCommas(Join(symbols, separators))) == symbols
    decreases |symbols|
  {
    assert symbols[0] in symbols;
    if |symbols| > 1 {
      assert forall x :: x in symbols[1..] ==> x in symbols;
      SplitJoin(symbols[1..], separators[1..]);
      SplitJoinStep(symbols, separators);
    } else {
      NoCommaUnchanged(symbols[0]);
      SplitWord(symbols[0]);
    }
  }

  /** The step of `SplitJoin` past the first symbol and its separator. */
  lemma SplitJoinStep(symbols: seq<string>, separators: seq<char>)
    requires |symbols| > 1 && |separators| == |symbols| - 1
    requires CliSymbol(symbols[0]) && IsSeparator(separators[0])
    requires Split(ReplaceCommas(Join(symbols[1..], separators[1..]))) == symbols[1..]
    ensures Split(ReplaceCommas(Join(symbols, separators))) == symbols
  {
    var head := symbols[0];
    var rest := ReplaceCommas(Join(symbols[1..], separators[1..]));
    var c' := if separators[0] == ',' then ' ' else separators[0];
    JoinReplaced(symbols, separators);
    SplitWord(head);
    SplitAtSpace(head, c', rest);
    Uncons(symbols);
  }

  lemma JoinReplaced(symbols: seq<string>, separators: seq<char>)
    requires |symbols| > 1 && |separators| == |symbols| - 1
    requires CliSymbol(symbols[0])
    ensures ReplaceCommas(Join(symbols, separators)) ==
              symbols[0] + [if separators[0] == ',' then ' ' else separators[0]] +
              ReplaceCommas(Join(symbols[1..], separators[1..]))
  {
    NoCommaUnchanged(symbols[0]);
    ReplaceCommasAround(symbols[0], separators[0], Join(symbols[1..], separators[1..]));
  }

  lemma NoCommaUnchanged(s: string)
    requires forall k :: 0 <= k < |s| ==> s[k] != ','
    ensures ReplaceCommas(s) == s
  {
  }

  lemma ReplaceCommasAround(a: string, c: char, b: string)
    ensures ReplaceCommas(a + [c] + b) == ReplaceCommas(a) + [if c == ',' then ' ' else c] + ReplaceCommas(b)
  {
    var l := ReplaceCommas(a + [c] + b);
    var r := ReplaceCommas(a) + [if c == ',' then ' ' else c] + ReplaceCommas(b);
    assert |l| == |r|;
    forall k | 0 <= k < |l|
      ensures l[k] == r[k]
    {
      if k < |a| {
      } else if k == |a| {
      } else {
        assert (a + [c] + b)[k] == b[k - |a| - 1];
      }
    }
  }

  // ---------------------------------------------------------------------------------------
  // The plain-text branch of `SymbolsLoader.from_file`

  /** Text mode's universal newlines: `"\r\n"` and a lone `"\r"` are read as `"\n"`. */
  function Newlines(s: string): (r: string)
    ensures forall k :: 0 <= k < |r| ==> r[k] != '\r'
    decreases |s|
  {
    if |s| == 0 then []
    else if s[0] == '\r' then ['\n'] + Newlines(if |s| > 1 && s[1] == '\n' then s[2..] else s[1..])
    else [s[0]] + Newlines(s[1..])
  }

  /** Text without a carriage return reads as written. */
  lemma {:induction false} NewlinesPlain(s: string)
    requires forall k :: 0 <= k < |s| ==> s[k] != '\r'
    ensures Newlines(s) == s
    decreases |s|
  {
    if |s| > 0 {
      NewlinesPlain(s[1..]);
    }
  }

  /** Reading translates the text line by line: text that ends with a newline reads the same
      on its own as in front of more text. */
  lemma {:induction false} NewlinesConcat(a: string, b: string)
    requires |a| == 0 || a[|a| - 1] == '\n'
    ensures Newlines(a + b) == Newlines(a) + Newlines(b)
    decreases |a|
  {
    if |a| > 0 {
      var s := a + b;
      if a[0] == '\r' {
        assert |a| > 1;
        if a[1] == '\n' {
          SlicesOfConcat(a, b, 2);
          NewlinesConcat(a[2..], b);
          ConcatAssoc(['\n'], Newlines(a[2..]), Newlines(b));
        } else {
          SlicesOfConcat(a, b, 1);
          NewlinesConcat(a[1..], b);
          ConcatAssoc(['\n'], Newlines(a[1..]), Newlines(b));
        }
      } else {
        SlicesOfConcat(a, b, 1);
        NewlinesConcat(a[1..], b);
        ConcatAssoc([a[0]], Newlines(a[1..]), Newlines(b));
      }
    } else {
      assert a + b == b;
    }
  }

  /** The length of the first line of `s`, its newline included. */
  function LineLength(s: string): (n: nat)
    ensures n <= |s|
    ensures |s| > 0 ==> n > 0
    ensures n < |s| ==> s[n - 1] == '\n'
  {
    if |s| == 0 then 0 else if s[0] == '\n' then 1 else 1 + LineLength(s[1..])
  }

  /** The strings concatenated. */
  function Concat(parts: seq<string>): string
  {
    if |parts| == 0 then [] else parts[0] + Concat(parts[1..])
  }

  /** `for line in f`: the lines of the text in order, each with its newline except perhaps
      the last. Together they are the whole text, and no line is empty. */
  function Lines(s: string): (lines: seq<string>)
    decreases |s|
  {
    if |s| == 0 then []
    else
      var n := LineLength(s);
      [s[..n]] + Lines(s[n..])
  }

  /** The lines of a text are the whole text: put back together they give the text. */
  lemma {:induction false} LinesCover(s: string)
    ensures Concat(Lines(s)) == s
    decreases |s|
  {
    if |s| > 0 {
      var n := LineLength(s);
      LinesCover(s[n..]);
      ConsParts(s[..n], Lines(s[n..]));
      SplitAt(s, n);
    }
  }

  /** Text that ends with a newline splits into lines on its own. */
  lemma {:induction false} LinesConcat(a: string, b: string)
    requires |a| == 0 || a[|a| - 1] == '\n'
    ensures Lines(a + b) == Lines(a) + Lines(b)
    decreases |a|
  {
    if |a| > 0 {
      var n := LineLength(a);
      FirstLineOfConcat(a, b);
      SlicesOfConcat(a, b, n);
      LinesConcat(a[n..], b);
      ConcatAssoc([a[..n]], Lines(a[n..]), Lines(b));
    } else {
      assert a + b == b;
    }
  }

  lemma SlicesOfConcat(a: string, b: string, n: nat)
    requires n <= |a| && (|a| == 0 || a[|a| - 1] == '\n')
    ensures (a + b)[..n] == a[..n] && (a + b)[n..] == a[n..] + b
    ensures |a + b| > 0 ==> (a + b)[0] == (if |a| > 0 then a[0] else b[0])
    ensures |a| > 1 ==> (a + b)[1] == a[1]
    ensures |a[n..]| == 0 || a[n..][|a[n..]| - 1] == '\n'
  {
  }

  lemma {:induction false} FirstLineOfConcat(a: string, b: string)
    requires |a| > 0 && a[|a| - 1] == '\n'
    ensures LineLength(a + b) == LineLength(a)
    decreases |a|
  {
    if a[0] != '\n' {
      assert (a + b)[1..] == a[1..] + b;
      FirstLineOfConcat(a[1..], b);
    }
  }

  /** A line `from_file` keeps: something is left after stripping it, and the line as read
      (not as stripped) does not start with `#`. */
  predicate Kept(line: string)
  {
    |Strip(line)| > 0 && !(|line| > 0 && line[0] == '#')
  }

  /** What one line contributes: its stripped form when it is kept, nothing otherwise. */
  function KeepLine(line: string): seq<string>
  {
    if Kept(line) then [Strip(line)] else []
  }

  /** `[line.strip() for line in f if line.strip() and not line.startswith("#")]`. */
  function KeepLines(lines: seq<string>): (symbols: seq<string>)
    ensures |symbols| <= |lines|
  {
    if |lines| == 0 then []
    else KeepLine(lines[0]) + KeepLines(lines[1..])
  }

  /** The symbols kept are the stripped forms of the lines kept, and of no other lines. */
  lemma {:induction false} KeepLinesMembers(lines: seq<string>)
    ensures forall x :: x in KeepLines(lines) ==> exists l :: l in lines && Kept(l) && x == Strip(l)
    ensures forall l :: l in lines && Kept(l) ==> Strip(l) in KeepLines(lines)
    decreases |lines|
  {
    if |lines| > 0 {
      var rest := lines[1..];
      KeepLinesMembers(rest);
      var head := KeepLine(lines[0]);
      assert KeepLines(lines) == head + KeepLines(rest);
      forall x | x in KeepLines(lines)
        ensures exists l :: l in lines && Kept(l) && x == Strip(l)
      {
        if x in head {
          assert lines[0] in lines;
        } else {
          var l :| l in rest && Kept(l) && x == Strip(l);
          assert l in lines;
        }
      }
      forall l | l in lines && Kept(l)
        ensures Strip(l) in KeepLines(lines)
      {
        if l != lines[0] {
          assert l in rest;
        }
      }
    }
  }

  lemma {:induction false} KeepLinesConcat(a: seq<string>, b: seq<string>)
    ensures KeepLines(a + b) == KeepLines(a) + KeepLines(b)
    decreases |a|
  {
    if |a| > 0 {
      KeepLinesConcat(a[1..], b);
      KeepLinesConcatStep(a, b);
    } else {
      assert a + b == b;
    }
  }

  lemma KeepLinesConcatStep(a: seq<string>, b: seq<string>)
    requires |a| > 0
    requires KeepLines(a[1..] + b) == KeepLines(a[1..]) + KeepLines(b)
    ensures KeepLines(a + b) == KeepLines(a) + KeepLines(b)
  {
    ConsOfConcat(a, b);
    ConcatAssoc(KeepLine(a[0]), KeepLines(a[1..]), KeepLines(b));
  }

  /** The symbols of a text file read by the plain-text branch. Each one is non-empty and
      stripped, and is the stripped form of a line that does not start with `#`. */
  function FromFileText(content: string): (symbols: seq<string>)
    ensures forall x :: x in symbols ==> |x| > 0 && !IsSpace(x[0]) && !IsSpace(x[|x| - 1])
    ensures forall x :: x in symbols ==> exists l :: l in Lines(Newlines(content)) && Kept(l) && x == Strip(l)
  {
    var lines := Lines(Newlines(content));
    KeepLinesMembers(lines);
    KeepLines(lines)
  }

  /** A file that ends with a newline reads the same on its own as in front of more text:
      reading a file is reading its lines one after another. */
  lemma FromFileTextConcat(a: string, b: string)
    requires |a| == 0 || a[|a| - 1] == '\n'
    ensures FromFileText(a + b) == FromFileText(a) + FromFileText(b)
  {
    NewlinesConcat(a, b);
    var na := Newlines(a);
    assert |na| == 0 || na[|na| - 1] == '\n' by {
      NewlinesEnd(a);
    }
    LinesConcat(na, Newlines(b));
    KeepLinesConcat(Lines(na), Lines(Newlines(b)));
  }

  lemma {:induction false} NewlinesEnd(a: string)
    requires |a| == 0 || a[|a| - 1] == '\n'
    ensures var r := Newlines(a); |r| == 0 || r[|r| - 1] == '\n'
    decreases |a|
  {
    if |a| > 0 {
      if a[0] == '\r' {
        assert |a| > 1;
        if a[1] == '\n' {
          NewlinesEnd(a[2..]);
        } else {
          NewlinesEnd(a[1..]);
        }
      } else {
        NewlinesEnd(a[1..]);
      }
    }
  }

  /** A line that the text file holds by itself, newline included. */
  lemma OneLine(l: string)
    requires forall k :: 0 <= k < |l| ==> l[k] != '\n' && l[k] != '\r'
    ensures FromFileText(l + "\n") == if Kept(l + "\n") then [Strip(l + "\n")] else []
  {
    var s := l + "\n";
    NewlinesPlain(s);
    assert LineLength(s) == |s| by {
      LineOfOne(l);
    }
    assert s[..|s|] == s;
    assert s[|s|..] == [];
    assert Lines(s) == [s];
    assert KeepLines([s]) == KeepLine(s) + KeepLines([]);
  }

  lemma {:induction false} LineOfOne(l: string)
    requires forall k :: 0 <= k < |l| ==> l[k] != '\n'
    ensures LineLength(l + "\n") == |l| + 1
    decreases |l|
  {
    if |l| > 0 {
      assert (l + "\n")[1..] == l[1..] + "\n";
      LineOfOne(l[1..]);
    }
  }

  /** A symbol free of whitespace followed by a newline strips to itself. */
  lemma StripLine(w: string)
    requires |w| > 0 && NoSpace(w)
    ensures Strip(w + "\n") == w
  {
    var s := w + "\n";
    assert TrimStart(s) == s;
    assert s[..|s| - 1] == w;
    assert TrimEnd(s) == TrimEnd(w);
  }

  /** A symbol a symbols file can hold on a line of its own: non-empty, without whitespace,
      and not starting with `#`. */
  predicate FileSymbol(x: string)
  {
    |x| > 0 && NoSpace(x) && x[0] != '#'
  }

  /** The three line ends text mode reads as a newline. */
  predicate LineEnd(eol: string)
  {
    eol == "\n" || eol == "\r\n" || eol == "\r"
  }

  /** The symbols written one per line, each line ended by `eol`. */
  function JoinLines(symbols: seq<string>, eol: string): string
  {
    if |symbols| == 0 then [] else symbols[0] + eol + JoinLines(symbols[1..], eol)
  }

  /** A symbol free of whitespace has neither a newline nor a carriage return. */
  lemma NoLineBreak(w: string)
    requires NoSpace(w)
    ensures forall k :: 0 <= k < |w| ==> w[k] != '\n' && w[k] != '\r'
  {
    assert IsSpace('\n') && IsSpace('\r');
  }

  /** A line holding just a symbol that does not start with `#` reads as that symbol. */
  lemma SymbolLine(w: string)
    requires |w| > 0 && NoSpace(w) && w[0] != '#'
    ensures FromFileText(w + "\n") == [w]
  {
    NoLineBreak(w);
    OneLine(w);
    StripLine(w);
    assert (w + "\n")[0] == w[0];
  }

  /** The file `from_file` reads back: symbols free of whitespace that do not start with `#`,
      one per line, come back in order. */
  lemma {:induction false} FromFileTextJoin(symbols: seq<string>)
    requires forall x :: x in symbols ==> FileSymbol(x)
    ensures FromFileText(JoinLines(symbols, "\n")) == symbols
    decreases |symbols|
  {
    if |symbols| > 0 {
      assert symbols[0] in symbols;
      assert forall x :: x in symbols[1..] ==> x in symbols;
      FromFileTextJoin(symbols[1..]);
      FromFileTextJoinStep(symbols);
    }
  }

  /** The step of `FromFileTextJoin` past the first line. */
  lemma FromFileTextJoinStep(symbols: seq<string>)
    requires |symbols| > 0 && FileSymbol(symbols[0])
    requires FromFileText(JoinLines(symbols[1..], "\n")) == symbols[1..]
    ensures FromFileText(JoinLines(symbols, "\n")) == symbols
  {
    var w := symbols[0];
    var line := w + "\n";
    assert JoinLines(symbols, "\n") == line + JoinLines(symbols[1..], "\n");
    FromFileTextConcat(line, JoinLines(symbols[1..], "\n"));
    SymbolLine(w);
    assert symbols == [w] + symbols[1..];
  }

  /** A file written with Windows (`"\r\n"`) or classic Mac (`"\r"`) line ends reads back the
      same symbols as one written with `"\n"`: text mode turns each line end into a newline. */
  lemma FromFileTextJoinLineEnds(symbols: seq<string>, eol: string)
    requires forall x :: x in symbols ==> FileSymbol(x)
    requires LineEnd(eol)
    ensures FromFileText(JoinLines(symbols, eol)) == symbols
  {
    NewlinesJoin(symbols, eol);
    NewlinesJoin(symbols, "\n");
    FromFileTextJoin(symbols);
  }

  /** Reading symbols joined by any line end gives them joined by newlines. */
  lemma {:induction false} NewlinesJoin(symbols: seq<string>, eol: string)
    requires forall x :: x in symbols ==> FileSymbol(x)
    requires LineEnd(eol)
    ensures Newlines(JoinLines(symbols, eol)) == JoinLines(symbols, "\n")
    decreases |symbols|
  {
    if |symbols| > 0 {
      var w := symbols[0];
      var rest := JoinLines(symbols[1..], eol);
      assert w in symbols;
      assert forall x :: x in symbols[1..] ==> x in symbols;
      NewlinesJoin(symbols[1..], eol);
      if |symbols| > 1 {
        assert symbols[1] in symbols;
        assert rest[0] == symbols[1][0];
      }
      NoLineBreak(w);
      NewlinesLine(w, eol, rest);
    }
  }

  /** A line without carriage returns, ended by any line end and followed by text that does
      not start a second line break, reads as the line, one newline, and the rest read on its
      own. */
  lemma {:induction false} NewlinesLine(w: string, eol: string, rest: string)
    requires forall k :: 0 <= k < |w| ==> w[k] != '\r'
    requires LineEnd(eol)
    requires |rest| == 0 || rest[0] != '\n'
    ensures Newlines(w + eol + rest) == w + "\n" + Newlines(rest)
    decreases |w|
  {
    if |w| == 0 {
      assert w + eol + rest == eol + rest;
      LineEndRead(eol, rest);
    } else {
      NewlinesLine(w[1..], eol, rest);
      NewlinesLineStep(w, eol, rest);
    }
  }

  /** The step of `NewlinesLine` past the line's first character. */
  lemma NewlinesLineStep(w: string, eol: string, rest: string)
    requires |w| > 0 && w[0] != '\r'
    requires Newlines(w[1..] + eol + rest) == w[1..] + "\n" + Newlines(rest)
    ensures Newlines(w + eol + rest) == w + "\n" + Newlines(rest)
  {
    var t := w[1..] + eol + rest;
    assert w + eol + rest == [w[0]] + t;
    NewlinesCons(w[0], t);
    assert w + "\n" + Newlines(rest) == [w[0]] + (w[1..] + "\n" + Newlines(rest));
  }

  /** A character other than a carriage return reads as itself. */
  lemma NewlinesCons(c: char, t: string)
    requires c != '\r'
    ensures Newlines([c] + t) == [c] + Newlines(t)
  {
    assert ([c] + t)[1..] == t;
  }

  /** A line end, not followed by a newline that would extend it, reads as one newline. */
  lemma LineEndRead(eol: string, rest: string)
    requires LineEnd(eol)
    requires |rest| == 0 || rest[0] != '\n'
    ensures Newlines(eol + rest) == "\n" + Newlines(rest)
  {
    var s := eol + rest;
    if eol == "\r\n" {
      assert s[2..] == rest;
    } else {
      assert s[1..] == rest;
    }
  }

  lemma HashWord(w: string)
    requires NoSpace(w)
    ensures NoSpace("#" + w)
  {
    var h := "#" + w;
    forall k | 0 <= k < |h|
      ensures !IsSpace(h[k])
    {
      if k > 0 {
        assert h[k] == w[k - 1];
      }
    }
  }

  /** A comment line contributes nothing when `#` is its very first character. */
  lemma CommentLineDropped(w: string, rest: string)
    requires NoSpace(w)
    ensures FromFileText("#" + w + "\n" + rest) == FromFileText(rest)
  {
    var comment := "#" + w;
    HashWord(w);
    NoLineBreak(comment);
    assert "#" + w + "\n" + rest == (comment + "\n") + rest;
    FromFileTextConcat(comment + "\n", rest);
    OneLine(comment);
    assert !Kept(comment + "\n");
  }

  /** An indented comment line is not a comment: it is kept, stripped, as a symbol that
      starts with `#`. */
  lemma IndentedCommentKept(w: string, rest: string)
    requires NoSpace(w)
    ensures FromFileText(" #" + w + "\n" + rest) == ["#" + w] + FromFileText(rest)
  {
    var comment := "#" + w;
    var indented := " " + comment;
    HashWord(w);
    NoLineBreak(comment);
    assert " #" + w + "\n" + rest == (indented + "\n") + rest;
    FromFileTextConcat(indented + "\n", rest);
    IndentedLine(comment);
    OneLine(indented);
    StripIndented(comment);
  }

  lemma IndentedLine(c: string)
    requires forall k :: 0 <= k < |c| ==> c[k] != '\n' && c[k] != '\r'
    ensures forall k :: 0 <= k < |" " + c| ==> (" " + c)[k] != '\n' && (" " + c)[k] != '\r'
  {
    forall k | 0 <= k < |" " + c|
      ensures (" " + c)[k] != '\n' && (" " + c)[k] != '\r'
    {
      if k > 0 {
        assert (" " + c)[k] == c[k - 1];
      }
    }
  }

  lemma StripIndented(c: string)
    requires |c| > 0 && NoSpace(c)
    ensures Strip(" " + c + "\n") == c && Kept(" " + c + "\n")
  {
    var s := " " + c + "\n";
    assert s[0] == ' ' && IsSpace(s[0]);
    assert s[1..] == c + "\n";
    assert TrimStart(s) == TrimStart(s[1..]);
    StripLine(c);
    assert TrimStart(c + "\n") == c + "\n";
  }

  // ---------------------------------------------------------------------------------------
  // `CLI.run`

  /** A symbols file as `from_file` finds it: no such path; a path that exists but that
      `open(path, "r", encoding="utf-8")` or the iteration over its lines fails on (a directory,
      a file without read permission, bytes that are not UTF-8); or a file of text. */
  datatype SymbolsFileState = Missing | Unreadable | Readable(content: string)

  /** Why loading the symbols ends `run`: the `FileNotFoundError` of line 29, or any other
      error of opening or reading the file, caught by the generic handler. */
  datatype CliError = FileNotFound | ReadFailed

  /** `from_file(filepath)` for a file read as text. */
  function LoadSymbolsFile(file: SymbolsFileState): (r: Result<seq<string>, CliError>)
    ensures r == Err(FileNotFound) <==> file.Missing?
    ensures r == Err(ReadFailed) <==> file.Unreadable?
    ensures r.Ok? <==> file.Readable?
    ensures r.Ok? ==> r.value == FromFileText(file.content)
  {
    match file
    case Missing => Err(FileNotFound)
    case Unreadable => Err(ReadFailed)
    case Readable(content) => Ok(FromFileText(content))
  }

  /** Where the symbols come from: `-s` with its list, or `-f` with the file it names. */
  datatype SymbolSource = Listed(symbols: seq<string>) | SymbolsFile(file: SymbolsFileState)

  /** The parsed arguments `run` acts on. */
  datatype Arguments = Arguments(source: SymbolSource, dataDir: Path, full: bool, strategy: string)

  /** The factory call of `run`: `"update"` gives the update merge, anything else the append
      merge. */
  function SelectPolicy(strategy: string): (p: MergePolicy)
    ensures p == UpdatePolicy <==> strategy == "update"
    ensures p == AppendPolicy <==> strategy != "update"
  {
    if strategy == "update" then UpdatePolicy else AppendPolicy
  }

  /** The symbols `run` processes, or the error that ends it. */
  function LoadSymbols(source: SymbolSource): Result<seq<string>, CliError>
  {
    match source
    case Listed(symbols) => Ok(symbols)
    case SymbolsFile(file) => LoadSymbolsFile(file)
  }

  /** A result the summary counts as a success: present and not empty. */
  predicate Succeeded(r: Option<Series>)
  {
    r.Some? && |r.value| > 0
  }

  /** The printed counts of the summary. */
  datatype Summary = Summary(successes: nat, failures: nat)

  /** What `run` returns, the summary it prints, and the files afterwards. */
  datatype Outcome = Outcome(exitCode: int, summary: Option<Summary>, store: Store)

  /** The number of entries of the results dict that count as a success. */
  function SuccessCount(results: map<string, Option<Series>>): nat
  {
    |set s | s in results && Succeeded(results[s])|
  }

  /** The manager the factory builds for the arguments. */
  function ManagerFor(args: Arguments, download: StockConfig -> Option<Series>, writeFails: Path -> bool): (m: Manager)
    ensures m.dataDir == args.dataDir && m.download == download && m.writeFails == writeFails
    ensures m.policy == SelectPolicy(args.strategy)
  {
    Manager(args.dataDir, SelectPolicy(args.strategy), download, writeFails)
  }

  /** `run(args)`: load the symbols; stop with 1 on a file that is missing or cannot be read,
      or on an empty list, before any
      download; otherwise download them all, count the successes over the results dict, and
      return 0 exactly when there was at least one. The failures printed are the number of
      symbols given minus the successes. */
  function Run(args: Arguments, download: StockConfig -> Option<Series>, writeFails: Path -> bool,
               store: Store, today: Day): (out: Outcome)
    ensures out.exitCode == 0 || out.exitCode == 1
    ensures LoadSymbols(args.source).Err? ==> out == Outcome(1, None, store)
    ensures LoadSymbols(args.source) == Ok([]) ==> out == Outcome(1, None, store)
    ensures out.summary.Some? <==> LoadSymbols(args.source).Ok? && |LoadSymbols(args.source).value| > 0
    ensures out.summary.Some? ==>
              var symbols := LoadSymbols(args.source).value;
              var batch := DownloadMultiple(ManagerFor(args, download, writeFails), store, symbols, args.full, today);
              && out.store == batch.store
              && out.summary.value.successes == |set s | s in symbols && Succeeded(batch.results[s])|
              && out.summary.value.successes + out.summary.value.failures == |symbols|
              && (out.exitCode == 0 <==> exists s :: s in symbols && Succeeded(batch.results[s]))
  {
    match LoadSymbols(args.source)
    case Err(_) => Outcome(1, None, store)
    case Ok(symbols) =>
      if |symbols| == 0 then Outcome(1, None, store)
      else
        var m := ManagerFor(args, download, writeFails);
        var batch := DownloadMultiple(m, store, symbols, args.full, today);
        var successes := SuccessCount(batch.results);
        SuccessesOfSymbols(symbols, batch.results);
        Outcome(if successes > 0 then 0 else 1, Some(Summary(successes, |symbols| - successes)), batch.store)
  }

  /** Counting over the results dict is counting over the distinct symbols given, which are no
      more than the symbols given. */
  lemma SuccessesOfSymbols(symbols: seq<string>, results: map<string, Option<Series>>)
    requires results.Keys == set s | s in symbols
    ensures SuccessCount(results) == |set s | s in symbols && Succeeded(results[s])|
    ensures SuccessCount(results) <= |symbols|
    ensures SuccessCount(results) > 0 <==> exists s :: s in symbols && Succeeded(results[s])
  {
    var wins := set s | s in symbols && Succeeded(results[s]);
    assert (set s | s in results && Succeeded(results[s])) == wins;
    SubsetBound(wins, set s | s in symbols);
    DistinctBound(symbols);
    if exists s :: s in symbols && Succeeded(results[s]) {
      var s :| s in symbols && Succeeded(results[s]);
      assert s in wins;
    }
  }

  lemma SubsetBound(a: set<string>, b: set<string>)
    requires a <= b
    ensures |a| <= |b|
  {
    assert b == a + (b - a);
  }

  /** A list holds no more distinct elements than it is long. */
  lemma {:induction false} DistinctBound(xs: seq<string>)
    ensures |set x | x in xs| <= |xs|
    decreases |xs|
  {
    if |xs| > 0 {
      var rest := xs[..|xs| - 1];
      DistinctBound(rest);
      assert (set x | x in xs) == (set x | x in rest) + {xs[|xs| - 1]} by {
        assert xs == rest + [xs[|xs| - 1]];
      }
    }
  }

  /** When no symbol is listed twice, the run succeeds exactly when some symbol, processed on
      its own against the initial files, would have downloaded something. */
  lemma RunSucceedsIffSomeSymbolDoes(args: Arguments, download: StockConfig -> Option<Series>,
                                     writeFails: Path -> bool, store: Store, today: Day)
    requires args.source.Listed? && |args.source.symbols| > 0
    requires forall a, b :: 0 <= a < b < |args.source.symbols| ==> args.source.symbols[a] != args.source.symbols[b]
    requires forall k :: 0 <= k < |args.source.symbols| ==> PlainSymbol(args.source.symbols[k])
    ensures Run(args, download, writeFails, store, today).exitCode == 0 <==>
              exists i :: 0 <= i < |args.source.symbols| &&
                Succeeded(AloneResult(ManagerFor(args, download, writeFails), store, args.source.symbols[i], args.full, today))
  {
    BatchSucceedsIffSomeSymbolDoes(ManagerFor(args, download, writeFails), store, args.source.symbols, args.full, today);
  }

  /** What `download_multiple` records for a symbol processed on its own. */
  function AloneResult(m: Manager, store: Store, symbol: string, forceFull: bool, today: Day): Option<Series>
  {
    ToOption(DownloadAndSave(m, store, symbol, forceFull, today).step.outcome)
  }

  lemma BatchSucceedsIffSomeSymbolDoes(m: Manager, store: Store, symbols: seq<string>, forceFull: bool, today: Day)
    requires forall a, b :: 0 <= a < b < |symbols| ==> symbols[a] != symbols[b]
    requires forall k :: 0 <= k < |symbols| ==> PlainSymbol(symbols[k])
    ensures var batch := DownloadMultiple(m, store, symbols, forceFull, today);
            (exists s :: s in symbols && Succeeded(batch.results[s])) <==>
              exists i :: 0 <= i < |symbols| && Succeeded(AloneResult(m, store, symbols[i], forceFull, today))
  {
    var batch := DownloadMultiple(m, store, symbols, forceFull, today);
    var alone := seq(|symbols|, i requires 0 <= i < |symbols| => AloneResult(m, store, symbols[i], forceFull, today));
    forall i | 0 <= i < |symbols|
      ensures batch.results[symbols[i]] == alone[i]
    {
      DownloadMultipleIsolation(m, store, symbols, forceFull, today, i);
    }
    SomeEntrySucceeds(symbols, batch.results, alone);
  }

  /** A dict that agrees with a list of results position by position has a success among the
      listed keys exactly when the list has one. */
  lemma SomeEntrySucceeds(symbols: seq<string>, results: map<string, Option<Series>>, alone: seq<Option<Series>>)
    requires |alone| == |symbols|
    requires forall i :: 0 <= i < |symbols| ==> symbols[i] in results && results[symbols[i]] == alone[i]
    ensures (exists s :: s in symbols && Succeeded(results[s])) <==> exists i :: 0 <= i < |symbols| && Succeeded(alone[i])
  {
    if exists s :: s in symbols && Succeeded(results[s]) {
      var s :| s in symbols && Succeeded(results[s]);
      var i :| 0 <= i < |symbols| && symbols[i] == s;
      assert Succeeded(alone[i]);
    }
    if exists i :: 0 <= i < |symbols| && Succeeded(alone[i]) {
      var i :| 0 <= i < |symbols| && Succeeded(alone[i]);
      assert symbols[i] in symbols && Succeeded(results[symbols[i]]);
    }
  }
}
