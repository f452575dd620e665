/** `validateName`: the project name accepted on the command line, and what `toTitleCase` makes of
    an accepted name. */
module Names {
  import opened Ascii
  import opened Errors
  import opened TitleCasing

  /** The message of the `InvalidArgumentError` thrown for a bad name. */
  const NameRule := "Can only contain lowercase letters, digits, _ and -"

  /** The regular expression `/^[a-z0-9_-]+$/`, read as written: one character of the class, then
      either the end of the input or another match of the same pattern. */
  predicate MatchesNamePattern(s: string)
    decreases |s|
  {
    |s| >= 1 && IsNameChar(s[0]) && (|s| == 1 || MatchesNamePattern(s[1..]))
  }

  /** A project name: non-empty, every character a lower-case ASCII letter, a digit, `_` or `-`. */
  predicate IsValidName(s: string)
  {
    |s| > 0 && forall i :: 0 <= i < |s| ==> IsNameChar(s[i])
  }

  /** The anchored one-or-more pattern accepts exactly the non-empty strings over its class. */
  lemma {:induction false} NamePatternIsCharClass(s: string)
    ensures MatchesNamePattern(s) <==> IsValidName(s)
    decreases |s|
  {
    if |s| > 1 {
      NamePatternIsCharClass(s[1..]);
      assert forall i :: 0 < i < |s| ==> s[1..][i - 1] == s[i];
    }
  }

  /** `validateName(name)`: the name itself when it matches the pattern, otherwise the error. */
  function ValidateName(name: string): (r: Result<string>)
    ensures r == Ok(name) <==> IsValidName(name)
    ensures r != Ok(name) ==> r == Err(InvalidArgument(NameRule))
  {
    NamePatternIsCharClass(name);
    if !MatchesNamePattern(name) then Err(InvalidArgument(NameRule)) else Ok(name)
  }

  /** An accepted name holds no path separator, dot, space or upper-case letter, so it is neither
      `.` nor `..`, nor an absolute path, nor more than one path component. */
  lemma {:induction false} ValidNameIsPlain(name: string)
    requires IsValidName(name)
    ensures forall i :: 0 <= i < |name| ==> name[i] !in {'/', '\\', '.', ' '} && !IsUpper(name[i])
    ensures name != "." && name != ".." && name[0] != '/'
  {
    assert IsNameChar(name[0]);
  }

  /** In an accepted name `-` is the only non-word character, and no character changes when
      lower-cased. */
  lemma {:induction false} ValidNameChars(name: string)
    requires IsValidName(name)
    ensures forall i :: 0 <= i < |name| ==> (IsWordChar(name[i]) <==> name[i] != '-')
    ensures forall i :: 0 <= i < |name| ==> ToLower(name[i]) == name[i]
  {
  }

  predicate NoDoubleDash(name: string)
  {
    forall i :: 0 < i < |name| ==> name[i - 1] != '-' || name[i] != '-'
  }

  /** Each `-` becomes a space, and the character after a `-` (or at the start) is upper-cased. */
  function DashesToSpaces(name: string): (r: string)
    ensures |r| == |name|
  {
    seq(|name|, i requires 0 <= i < |name| =>
      if name[i] == '-' then ' '
      else if i == 0 || name[i - 1] == '-' then ToUpper(name[i])
      else name[i])
  }

  /** The friendly name of an accepted name is never longer than the name. It has the same length
      exactly when the name has no `--`, and it is then the name with each `-` replaced by a space
      and the first character of each word upper-cased. */
  lemma {:induction false} FriendlyNameOfValidName(name: string)
    requires IsValidName(name)
    ensures |TitleCase(name)| <= |name|
    ensures |TitleCase(name)| == |name| <==> NoDoubleDash(name)
    ensures NoDoubleDash(name) ==> TitleCase(name) == DashesToSpaces(name)
  {
    ValidNameChars(name);
    TitleCaseLength(name);
    assert NoDoubleDash(name) <==> NoAdjacentSeparators(name);
    if NoDoubleDash(name) {
      TitleCaseKeepsPositions(name);
    }
  }

  /** The friendly name of an accepted name never has two spaces in a row; it starts (ends) with a
      space exactly when the name starts (ends) with `-`, since the empty first (last) piece of the
      split is kept. */
  lemma {:induction false} FriendlyNameSpacing(name: string)
    requires IsValidName(name)
    ensures forall i :: 0 < i < |TitleCase(name)| ==> TitleCase(name)[i - 1] != ' ' || TitleCase(name)[i] != ' '
    ensures |TitleCase(name)| > 0
    ensures TitleCase(name)[0] == ' ' <==> name[0] == '-'
    ensures TitleCase(name)[|TitleCase(name)| - 1] == ' ' <==> name[|name| - 1] == '-'
  {
    ValidNameChars(name);
    TitleCaseSpacing(name);
    TitleCaseIsScan(name);
  }

  lemma SpaceTraderExample()
    ensures ValidateName("space-trader") == Ok("space-trader")
    ensures TitleCase("space-trader") == "Space Trader"
  {
    SpaceTraderByPosition();
    FriendlyNameOfValidName("space-trader");
  }

  lemma SpaceTraderByPosition()
    ensures IsValidName("space-trader") && NoDoubleDash("space-trader")
    ensures DashesToSpaces("space-trader") == "Space Trader"
  {
  }

  /** `_` is a word character, so it does not separate words. */
  lemma UnderscoreExample()
    ensures TitleCase("my-cool_game") == "My Cool_game"
  {
    UnderscoreByPosition();
    FriendlyNameOfValidName("my-cool_game");
  }

  lemma UnderscoreByPosition()
    ensures IsValidName("my-cool_game") && NoDoubleDash("my-cool_game")
    ensures DashesToSpaces("my-cool_game") == "My Cool_game"
  {
  }

  lemma LeadingDashExample()
    ensures TitleCase("-x") == " X"
  {
    FriendlyNameOfValidName("-x");
  }

  lemma RejectedNameExample()
    ensures ValidateName("Space Trader") == Err(InvalidArgument(NameRule))
  {
    assert !IsNameChar("Space Trader"[0]);
  }
}
