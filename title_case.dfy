/** The `toTitleCase` helper that turns a project name into the game's friendly name:
    `str.split(/\W+/).map(s => s.charAt(0).toUpperCase() + s.substr(1).toLowerCase()).join(" ")`. */
module TitleCasing {
  import opened Ascii
  import opened Strings

  predicate AllWord(t: string) { forall j :: 0 <= j < |t| ==> IsWordChar(t[j]) }
  predicate NoWord(t: string) { forall j :: 0 <= j < |t| ==> !IsWordChar(t[j]) }

  // ---------------------------------------------------------------------------------------------
  // Splitting on /\W+/
  // ---------------------------------------------------------------------------------------------

  /** `s.split(/\W+/)`: the pieces between maximal runs of non-word characters, empty pieces kept
      (a leading or trailing run yields an empty first or last piece; `""` splits into `[""]`). */
  function Split(s: string): (r: seq<string>)
    ensures |r| >= 1
    ensures |s| > 0 && IsWordChar(s[0]) ==> r[0] != [] && r[0][0] == s[0]
    ensures |s| > 0 && !IsWordChar(s[0]) ==> |r| >= 2 && r[0] == []
  {
    if s == [] then [[]]
    else if IsWordChar(s[0]) then
      var rest := Split(s[1..]);
      [[s[0]] + rest[0]] + rest[1..]
    else if |s| > 1 && !IsWordChar(s[1]) then
      Split(s[1..])
    else
      [[]] + Split(s[1..])
  }

  /** The maximal runs of non-word characters of `s`, in order: what `Split` removes. */
  function Separators(s: string): (r: seq<string>)
    ensures |r| + 1 == |Split(s)|
  {
    if s == [] then []
    else if IsWordChar(s[0]) then Separators(s[1..])
    else if |s| > 1 && !IsWordChar(s[1]) then
      var rest := Separators(s[1..]);
      [[s[0]] + rest[0]] + rest[1..]
    else
      [[s[0]]] + Separators(s[1..])
  }

  /** `tokens` and `seps` cut `s` into maximal runs: the tokens are runs of word characters, the
      separators non-empty runs of non-word characters, and only the first and last token may be
      empty (an empty inner token would make two separator runs adjacent, so not maximal). */
  predicate IsSplitting(s: string, tokens: seq<string>, seps: seq<string>)
  {
    && |tokens| == |seps| + 1
    && (forall i :: 0 <= i < |tokens| ==> AllWord(tokens[i]))
    && (forall i :: 0 <= i < |seps| ==> seps[i] != [] && NoWord(seps[i]))
    && (forall i :: 0 < i < |tokens| - 1 ==> tokens[i] != [])
    && Interleave(tokens, seps) == s
  }

  /** `Split` and `Separators` cut the input into its maximal runs and lose nothing. */
  lemma {:induction false} SplitIsSplitting(s: string)
    ensures IsSplitting(s, Split(s), Separators(s))
  {
    SplitTokensAreWords(s);
    SeparatorsAreRuns(s);
    SplitInnerNonEmpty(s);
    SplitInterleaves(s);
  }

  lemma {:induction false} SplitTokensAreWords(s: string)
    ensures forall i :: 0 <= i < |Split(s)| ==> AllWord(Split(s)[i])
  {
    if s != [] {
      var a := Split(s[1..]);
      SplitTokensAreWords(s[1..]);
      if IsWordChar(s[0]) {
        var t := Split(s);
        assert t[0] == [s[0]] + a[0];
        assert forall i :: 0 < i < |t| ==> t[i] == a[i];
      } else if !(|s| > 1 && !IsWordChar(s[1])) {
        assert forall i :: 0 < i < |Split(s)| ==> Split(s)[i] == a[i - 1];
      }
    }
  }

  lemma {:induction false} SeparatorsAreRuns(s: string)
    ensures forall i :: 0 <= i < |Separators(s)| ==> Separators(s)[i] != [] && NoWord(Separators(s)[i])
  {
    if s != [] {
      var b := Separators(s[1..]);
      SeparatorsAreRuns(s[1..]);
      if IsWordChar(s[0]) {
      } else if |s| > 1 && !IsWordChar(s[1]) {
        var u := Separators(s);
        assert u[0] == [s[0]] + b[0];
        assert forall i :: 0 < i < |u| ==> u[i] == b[i];
      } else {
        assert forall i :: 0 < i < |Separators(s)| ==> Separators(s)[i] == b[i - 1];
      }
    }
  }

  lemma {:induction false} SplitInnerNonEmpty(s: string)
    ensures forall i :: 0 < i < |Split(s)| - 1 ==> Split(s)[i] != []
  {
    if s != [] {
      var a := Split(s[1..]);
      SplitInnerNonEmpty(s[1..]);
      if IsWordChar(s[0]) {
        assert forall i :: 0 < i < |Split(s)| ==> Split(s)[i] == a[i];
      } else if !(|s| > 1 && !IsWordChar(s[1])) {
        assert forall i :: 0 < i < |Split(s)| ==> Split(s)[i] == a[i - 1];
        assert |a| >= 2 ==> a[0] != [];
      }
    }
  }

  lemma {:induction false} SplitInterleaves(s: string)
    ensures Interleave(Split(s), Separators(s)) == s
  {
    if s == [] {
      return;
    }
    var s' := s[1..];
    assert s == [s[0]] + s';
    var a, b := Split(s'), Separators(s');
    SplitInterleaves(s');
    if IsWordChar(s[0]) {
      InterleaveConsHead(s[0], a, b);
    } else if |s| > 1 && !IsWordChar(s[1]) {
      var u := Separators(s);
      assert u[0] == [s[0]] + b[0];
      assert u[1..] == b[1..];
      assert a[0] == [];
      calc {
        Interleave(a, u);
        a[0] + u[0] + Interleave(a[1..], b[1..]);
        [s[0]] + (a[0] + b[0] + Interleave(a[1..], b[1..]));
      }
    } else {
      var t, u := Split(s), Separators(s);
      assert t[1..] == a && u[1..] == b;
    }
  }

  /** A run of word characters in front of `x` extends the first piece of `x`. */
  lemma {:induction false} SplitWordPrefix(w: string, x: string)
    requires AllWord(w)
    ensures Split(w + x) == [w + Split(x)[0]] + Split(x)[1..]
    ensures Separators(w + x) == Separators(x)
    decreases |w|
  {
    if w == [] {
      assert w + x == x;
      var r := Split(x);
      assert w + r[0] == r[0];
      assert [r[0]] + r[1..] == r;
    } else {
      var y := w[1..] + x;
      assert (w + x)[0] == w[0] && (w + x)[1..] == y;
      SplitWordPrefix(w[1..], x);
      assert [w[0]] + (w[1..] + Split(x)[0]) == w + Split(x)[0];
    }
  }

  /** A separator run in front of `x`, where `x` does not itself start with a separator,
      contributes an empty first piece and exactly one separator. */
  lemma {:induction false} SplitSeparatorPrefix(sep: string, x: string)
    requires sep != [] && NoWord(sep)
    requires x == [] || IsWordChar(x[0])
    ensures Split(sep + x) == [[]] + Split(x)
    ensures Separators(sep + x) == [sep] + Separators(x)
    decreases |sep|
  {
    var y := sep[1..] + x;
    assert (sep + x)[0] == sep[0] && (sep + x)[1..] == y;
    if |sep| == 1 {
      assert y == x;
      assert x != [] ==> (sep + x)[1] == x[0];
      assert [sep[0]] == sep;
    } else {
      assert y[0] == sep[1];
      SplitSeparatorPrefix(sep[1..], x);
      assert [sep[0]] + sep[1..] == sep;
    }
  }

  /** Any cut of `s` into maximal runs is the one `Split` and `Separators` produce. */
  lemma {:induction false} SplittingIsUnique(s: string, tokens: seq<string>, seps: seq<string>)
    requires IsSplitting(s, tokens, seps)
    ensures tokens == Split(s) && seps == Separators(s)
    decreases |seps|
  {
    if |seps| == 0 {
      SplitOfWord(s);
    } else {
      var rest := SplittingTail(s, tokens, seps);
      SplittingIsUnique(rest, tokens[1..], seps[1..]);
      UniqueStep(s, tokens, seps, rest);
    }
  }

  lemma {:induction false} UniqueStep(s: string, tokens: seq<string>, seps: seq<string>, rest: string)
    requires |seps| > 0 && |tokens| == |seps| + 1
    requires AllWord(tokens[0]) && seps[0] != [] && NoWord(seps[0])
    requires rest == [] || IsWordChar(rest[0])
    requires s == tokens[0] + (seps[0] + rest)
    requires Split(rest) == tokens[1..] && Separators(rest) == seps[1..]
    ensures tokens == Split(s) && seps == Separators(s)
  {
    SplitAfterToken(tokens[0], seps[0], rest);
    assert [tokens[0]] + tokens[1..] == tokens;
    assert [seps[0]] + seps[1..] == seps;
  }

  /** A string of word characters only is a single piece. */
  lemma {:induction false} SplitOfWord(w: string)
    requires AllWord(w)
    ensures Split(w) == [w] && Separators(w) == []
  {
    SplitWordPrefix(w, []);
    assert w + [] == w;
  }

  /** A token, then a separator run, then a rest that does not start with a separator. */
  lemma {:induction false} SplitAfterToken(t: string, sep: string, rest: string)
    requires AllWord(t) && sep != [] && NoWord(sep)
    requires rest == [] || IsWordChar(rest[0])
    ensures Split(t + (sep + rest)) == [t] + Split(rest)
    ensures Separators(t + (sep + rest)) == [sep] + Separators(rest)
  {
    SplitSeparatorPrefix(sep, rest);
    SplitWordPrefix(t, sep + rest);
    assert t + [] == t;
  }

  /** Dropping the first token and separator of a cut leaves a cut of the rest, which starts with a
      word character unless it is empty. */
  lemma {:induction false} SplittingTail(s: string, tokens: seq<string>, seps: seq<string>)
    returns (rest: string)
    requires IsSplitting(s, tokens, seps) && |seps| > 0
    ensures IsSplitting(rest, tokens[1..], seps[1..])
    ensures s == tokens[0] + (seps[0] + rest)
    ensures AllWord(tokens[0]) && seps[0] != [] && NoWord(seps[0])
    ensures rest == [] || IsWordChar(rest[0])
  {
    rest := Interleave(tokens[1..], seps[1..]);
    assert AllWord(tokens[0]) && AllWord(tokens[1]);
    assert forall i :: 0 < i < |tokens| - 2 ==> tokens[1..][i] == tokens[i + 1];
    if tokens[1] != [] {
      InterleaveFirst(tokens[1..], seps[1..]);
    } else {
      assert |seps| == 1;
    }
  }

  // ---------------------------------------------------------------------------------------------
  // Capitalising each piece
  // ---------------------------------------------------------------------------------------------

  /** The first character is not lower-case and no later one is upper-case. */
  predicate IsTitleWord(t: string)
  {
    && (|t| > 0 ==> !IsLower(t[0]))
    && (forall i :: 0 < i < |t| ==> !IsUpper(t[i]))
  }

  /** `s.charAt(0).toUpperCase() + s.substr(1).toLowerCase()`; `""` stays `""`. */
  function Capitalize(t: string): (r: string)
    ensures |r| == |t|
  {
    if t == [] then [] else [ToUpper(t[0])] + LowerCase(t[1..])
  }

  /** A capitalised piece keeps every character up to case, leaves digits and `_` alone, has the
      shape of a title word, and capitalising a title word changes nothing. */
  lemma {:induction false} CapitalizeIsTitleWord(t: string)
    ensures forall i :: 0 <= i < |t| ==> ToLower(Capitalize(t)[i]) == ToLower(t[i])
    ensures forall i :: 0 <= i < |t| ==> (IsWordChar(Capitalize(t)[i]) <==> IsWordChar(t[i]))
    ensures forall i :: 0 <= i < |t| ==> !IsLetter(t[i]) ==> Capitalize(t)[i] == t[i]
    ensures IsTitleWord(Capitalize(t))
    ensures IsTitleWord(t) ==> Capitalize(t) == t
  {
    if t != [] {
      CaseRoundTrip(t[0]);
    }
  }

  /** The `.map(...)` step. */
  function CapitalizeAll(tokens: seq<string>): (r: seq<string>)
    ensures |r| == |tokens|
    ensures forall i :: 0 <= i < |tokens| ==> r[i] == Capitalize(tokens[i])
  {
    seq(|tokens|, i requires 0 <= i < |tokens| => Capitalize(tokens[i]))
  }

  /** `toTitleCase(str)`. */
  function TitleCase(s: string): string
  {
    Join(CapitalizeAll(Split(s)), " ")
  }

  /** Applying `toTitleCase` to its own output changes nothing: the output's pieces are already
      capitalised, and separated by single spaces, which split back into the same pieces. */
  lemma {:induction false} TitleCaseIdempotent(s: string)
    ensures TitleCase(TitleCase(s)) == TitleCase(s)
  {
    var caps := CapitalizeAll(Split(s));
    OutputIsSplitting(s);
    SplittingIsUnique(TitleCase(s), caps, Repeat(" ", |caps| - 1));
    forall i | 0 <= i < |caps| ensures Capitalize(caps[i]) == caps[i] {
      CapitalizeIsTitleWord(Split(s)[i]);
      CapitalizeIsTitleWord(caps[i]);
    }
    assert CapitalizeAll(caps) == caps;
  }

  /** The output of `toTitleCase` is cut into its maximal runs by its capitalised pieces and the
      single spaces between them. */
  lemma {:induction false} OutputIsSplitting(s: string)
    ensures IsSplitting(TitleCase(s), CapitalizeAll(Split(s)), Repeat(" ", |Split(s)| - 1))
  {
    var tokens := Split(s);
    var caps := CapitalizeAll(tokens);
    var spaces := Repeat(" ", |tokens| - 1);
    assert Interleave(caps, spaces) == TitleCase(s);
    assert forall i :: 0 <= i < |caps| ==> AllWord(caps[i]) by {
      SplitTokensAreWords(s);
      CapitalizeAllKeepsWords(tokens);
    }
    assert forall i :: 0 <= i < |spaces| ==> spaces[i] != [] && NoWord(spaces[i]) by {
      assert forall i :: 0 <= i < |spaces| ==> spaces[i] == " ";
    }
    assert forall i :: 0 < i < |caps| - 1 ==> caps[i] != [] by {
      SplitInnerNonEmpty(s);
      assert forall i :: 0 <= i < |caps| ==> |caps[i]| == |tokens[i]|;
    }
  }

  lemma {:induction false} CapitalizeAllKeepsWords(tokens: seq<string>)
    requires forall i :: 0 <= i < |tokens| ==> AllWord(tokens[i])
    ensures forall i :: 0 <= i < |tokens| ==> AllWord(CapitalizeAll(tokens)[i])
  {
    forall i | 0 <= i < |tokens| ensures AllWord(CapitalizeAll(tokens)[i]) {
      CapitalizeIsTitleWord(tokens[i]);
    }
  }

  // ---------------------------------------------------------------------------------------------
  // A one-pass reference definition
  // ---------------------------------------------------------------------------------------------

  /** Where a left-to-right scan stands: before the first character, just after a word character,
      or just after a non-word character. */
  datatype ScanState = AtStart | InWord | InSeparator

  /** Title case computed character by character: a word character is upper-cased when it starts a
      word and lower-cased otherwise; the first non-word character of each run becomes one space and
      the rest of the run is dropped. */
  function Scan(s: string, st: ScanState): (r: string)
    decreases |s|
  {
    if s == [] then []
    else if IsWordChar(s[0]) then
      [if st == InWord then ToLower(s[0]) else ToUpper(s[0])] + Scan(s[1..], InWord)
    else
      (if st == InSeparator then [] else [' ']) + Scan(s[1..], InSeparator)
  }

  lemma {:induction false} JoinConsHead(c: char, tokens: seq<string>)
    requires |tokens| >= 1
    ensures Join([[c] + tokens[0]] + tokens[1..], " ") == [c] + Join(tokens, " ")
  {
    InterleaveConsHead(c, tokens, Repeat(" ", |tokens| - 1));
  }

  lemma {:induction false} JoinEmptyHead(tokens: seq<string>)
    requires |tokens| >= 1
    ensures Join([[]] + tokens, " ") == " " + Join(tokens, " ")
  {
    assert ([[]] + tokens)[1..] == tokens;
  }

  lemma {:induction false} CapitalizeAllCons(t: string, tokens: seq<string>)
    ensures CapitalizeAll([t] + tokens) == [Capitalize(t)] + CapitalizeAll(tokens)
  {
  }

  /** Word character `c` in front of `w`: capitalising or lower-casing treats `c` alone. */
  lemma {:induction false} CaseConsHead(c: char, w: string)
    ensures Capitalize([c] + w) == [ToUpper(c)] + LowerCase(w)
    ensures LowerCase([c] + w) == [ToLower(c)] + LowerCase(w)
  {
    assert ([c] + w)[1..] == w;
  }

  /** The scan, once past the start, against split-map-join: just after a word character the first
      piece is lower-cased; just after a separator a leading separator run is swallowed. */
  lemma {:induction false} ScanInnerIsSplitMapJoin(s: string)
    ensures Scan(s, InWord) == Join([LowerCase(Split(s)[0])] + CapitalizeAll(Split(s)[1..]), " ")
    ensures Scan(s, InSeparator) ==
      if |s| > 0 && !IsWordChar(s[0]) then Join(CapitalizeAll(Split(s)[1..]), " ")
      else Join(CapitalizeAll(Split(s)), " ")
  {
    if s == [] {
      return;
    }
    var s' := s[1..];
    var a := Split(s');
    ScanInnerIsSplitMapJoin(s');
    var c := s[0];
    var t := Split(s);
    if IsWordChar(c) {
      assert t[1..] == a[1..];
      CaseConsHead(c, a[0]);
      CapitalizeAllCons(t[0], a[1..]);
      assert t == [t[0]] + a[1..];
      var lowered := [LowerCase(a[0])] + CapitalizeAll(a[1..]);
      assert lowered[1..] == CapitalizeAll(a[1..]);
      JoinConsHead(ToUpper(c), lowered);
      JoinConsHead(ToLower(c), lowered);
    } else {
      var rest := CapitalizeAll(t[1..]);
      assert [LowerCase(t[0])] + rest == [[]] + rest;
      JoinEmptyHead(rest);
      if |s| > 1 && !IsWordChar(s[1]) {
        assert t == a;
      } else {
        assert t[1..] == a;
      }
    }
  }

  /** `toTitleCase` equals the one-pass scan. */
  lemma {:induction false} TitleCaseIsScan(s: string)
    ensures TitleCase(s) == Scan(s, AtStart)
  {
    ScanInnerIsSplitMapJoin(s);
    if s != [] && !IsWordChar(s[0]) {
      var t := Split(s);
      ScanInnerIsSplitMapJoin(s[1..]);
      assert Scan(s, AtStart) == " " + Scan(s, InSeparator);
      CapitalizeAllCons(t[0], t[1..]);
      assert t == [t[0]] + t[1..];
      JoinEmptyHead(CapitalizeAll(t[1..]));
    }
  }

  // ---------------------------------------------------------------------------------------------
  // Shape of the output
  // ---------------------------------------------------------------------------------------------

  /** The scan emits word characters and single spaces; just after a separator it never emits a
      space first. */
  lemma {:induction false} ScanShape(s: string, st: ScanState)
    ensures forall i :: 0 <= i < |Scan(s, st)| ==> Scan(s, st)[i] == ' ' || IsWordChar(Scan(s, st)[i])
    ensures forall i :: 0 < i < |Scan(s, st)| ==> Scan(s, st)[i - 1] != ' ' || Scan(s, st)[i] != ' '
    ensures st == InSeparator && |Scan(s, st)| > 0 ==> Scan(s, st)[0] != ' '
    decreases |s|
  {
    if s != [] {
      var next := if IsWordChar(s[0]) then InWord else InSeparator;
      ScanShape(s[1..], next);
      var head := Scan(s, st)[..|Scan(s, st)| - |Scan(s[1..], next)|];
      assert Scan(s, st) == head + Scan(s[1..], next);
    }
  }

  /** The output's last character is a space exactly when the input ends in a non-word character,
      except that a scan already inside a separator run emits nothing for the rest of that run. */
  lemma {:induction false} ScanLast(s: string, st: ScanState)
    requires |s| > 0
    ensures NoWord(s) && st == InSeparator ==> Scan(s, st) == []
    ensures !IsWordChar(s[|s| - 1]) && !(NoWord(s) && st == InSeparator) ==>
      |Scan(s, st)| > 0 && Scan(s, st)[|Scan(s, st)| - 1] == ' '
    ensures IsWordChar(s[|s| - 1]) ==>
      |Scan(s, st)| > 0 && IsWordChar(Scan(s, st)[|Scan(s, st)| - 1])
    decreases |s|
  {
    var next := if IsWordChar(s[0]) then InWord else InSeparator;
    if |s| > 1 {
      ScanLast(s[1..], next);
      assert s[1..][|s| - 2] == s[|s| - 1];
      assert NoWord(s) ==> NoWord(s[1..]);
      assert NoWord(s[1..]) && !IsWordChar(s[0]) ==> NoWord(s);
    }
  }

  /** `toTitleCase` emits only word characters and spaces, never two spaces in a row, and a leading
      (trailing) space exactly when the input starts (ends) with a non-word character. */
  lemma {:induction false} TitleCaseSpacing(s: string)
    ensures forall i :: 0 <= i < |TitleCase(s)| ==> TitleCase(s)[i] == ' ' || IsWordChar(TitleCase(s)[i])
    ensures forall i :: 0 < i < |TitleCase(s)| ==> TitleCase(s)[i - 1] != ' ' || TitleCase(s)[i] != ' '
    ensures (|TitleCase(s)| > 0 && TitleCase(s)[0] == ' ') <==> (|s| > 0 && !IsWordChar(s[0]))
    ensures (|TitleCase(s)| > 0 && TitleCase(s)[|TitleCase(s)| - 1] == ' ') <==>
      (|s| > 0 && !IsWordChar(s[|s| - 1]))
  {
    TitleCaseIsScan(s);
    ScanShape(s, AtStart);
    if s != [] {
      ScanLast(s, AtStart);
      if IsWordChar(s[0]) {
        assert TitleCase(s)[0] == ToUpper(s[0]);
      }
    }
  }

  /** Number of positions where a non-word character follows another one: each such character is
      swallowed into the previous one's separator run. */
  function AdjacentSeparators(s: string): (n: nat)
  {
    if |s| < 2 then 0
    else (if !IsWordChar(s[0]) && !IsWordChar(s[1]) then 1 else 0) + AdjacentSeparators(s[1..])
  }

  predicate NoAdjacentSeparators(s: string)
  {
    forall i :: 0 < i < |s| ==> IsWordChar(s[i - 1]) || IsWordChar(s[i])
  }

  lemma {:induction false} AdjacentSeparatorsZero(s: string)
    ensures AdjacentSeparators(s) == 0 <==> NoAdjacentSeparators(s)
  {
    if |s| >= 2 {
      AdjacentSeparatorsZero(s[1..]);
      assert forall j :: 0 <= j < |s| - 1 ==> s[1..][j] == s[j + 1];
    }
  }

  lemma {:induction false} ScanLength(s: string, st: ScanState)
    ensures |Scan(s, st)| + AdjacentSeparators(s)
      + (if st == InSeparator && |s| > 0 && !IsWordChar(s[0]) then 1 else 0) == |s|
    decreases |s|
  {
    if s != [] {
      ScanLength(s[1..], if IsWordChar(s[0]) then InWord else InSeparator);
    }
  }

  /** Each run of k non-word characters shrinks to one space, so the output is shorter than the
      input by the number of non-word characters that follow another one; equal length exactly when
      no two non-word characters are adjacent. */
  lemma {:induction false} TitleCaseLength(s: string)
    ensures |TitleCase(s)| + AdjacentSeparators(s) == |s|
    ensures |TitleCase(s)| <= |s|
    ensures |TitleCase(s)| == |s| <==> NoAdjacentSeparators(s)
  {
    TitleCaseIsScan(s);
    ScanLength(s, AtStart);
    AdjacentSeparatorsZero(s);
  }

  /** Whether position `i` of `s` begins a run of word characters. */
  predicate StartsWord(s: string, i: nat)
    requires i < |s|
  {
    IsWordChar(s[i]) && (i == 0 || !IsWordChar(s[i - 1]))
  }

  /** The title case of an input with no two adjacent non-word characters, position by position:
      a non-word character becomes a space, a word character that starts a word is upper-cased, and
      any other word character is lower-cased. */
  function TitleCaseByPosition(s: string): (r: string)
    ensures |r| == |s|
  {
    seq(|s|, i requires 0 <= i < |s| =>
      if !IsWordChar(s[i]) then ' ' else if StartsWord(s, i) then ToUpper(s[i]) else ToLower(s[i]))
  }

  function StateBefore(s: string, k: nat): ScanState
    requires k <= |s|
  {
    if k == 0 then AtStart else if IsWordChar(s[k - 1]) then InWord else InSeparator
  }

  lemma {:induction false} ScanByPosition(s: string, k: nat)
    requires k <= |s| && NoAdjacentSeparators(s)
    ensures Scan(s[k..], StateBefore(s, k)) == TitleCaseByPosition(s)[k..]
    decreases |s| - k
  {
    if k < |s| {
      ScanByPosition(s, k + 1);
      assert s[k..][1..] == s[k + 1..];
      var r := TitleCaseByPosition(s);
      assert r[k..] == [r[k]] + r[k + 1..];
    }
  }

  /** With no two adjacent non-word characters, `toTitleCase` keeps every position. */
  lemma {:induction false} TitleCaseKeepsPositions(s: string)
    requires NoAdjacentSeparators(s)
    ensures TitleCase(s) == TitleCaseByPosition(s)
  {
    TitleCaseIsScan(s);
    ScanByPosition(s, 0);
    assert s[0..] == s;
  }

  /** An input without non-word characters is one piece: underscores and digits do not split. */
  lemma {:induction false} TitleCaseSingleWord(s: string)
    requires AllWord(s)
    ensures Split(s) == [s]
    ensures TitleCase(s) == Capitalize(s)
  {
    SplitOfWord(s);
  }
}
