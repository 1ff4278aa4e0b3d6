/**
 String normalisation shared by the web client and the Go services: trimming and
 lower-casing, with the few laws the other modules rely on.
 */
module Text {

  datatype Option<+T> = None | Some(value: T)

  predicate IsSpace(c: char) {
    c == ' ' || c == '\t' || c == '\n' || c == '\r' || c == '\U{000B}' || c == '\U{000C}'
  }

  function TrimStart(s: string): string {
    if s != "" && IsSpace(s[0]) then TrimStart(s[1..]) else s
  }

  function TrimEnd(s: string): string {
    if s != "" && IsSpace(s[|s| - 1]) then TrimEnd(s[..|s| - 1]) else s
  }

  function Trim(s: string): string {
    TrimEnd(TrimStart(s))
  }

  /** Lower-cases one character. U+212A (the Kelvin sign) is the only character outside
      ASCII whose lower-case form is an ASCII letter. */
  function LowerChar(c: char): char {
    if 'A' <= c <= 'Z' then c - 'A' + 'a'
    else if c == '\U{212A}' then 'k'
    else c
  }

  function ToLower(s: string): (r: string)
    ensures |r| == |s|
    ensures forall i :: 0 <= i < |s| ==> r[i] == LowerChar(s[i])
  {
    seq(|s|, i requires 0 <= i < |s| => LowerChar(s[i]))
  }

  function TrimLower(s: string): string {
    ToLower(Trim(s))
  }

  /** A string with no space at either end. */
  predicate Trimmed(s: string) {
    s == "" || (!IsSpace(s[0]) && !IsSpace(s[|s| - 1]))
  }

  lemma {:induction false} TrimEndKeepsHead(s: string)
    requires s == "" || !IsSpace(s[0])
    ensures Trimmed(TrimEnd(s))
  {
    if s != "" && IsSpace(s[|s| - 1]) {
      TrimEndKeepsHead(s[..|s| - 1]);
    }
  }

  lemma {:induction false} TrimStartDropsSpaces(s: string)
    ensures TrimStart(s) == "" || !IsSpace(TrimStart(s)[0])
  {
    if s != "" && IsSpace(s[0]) {
      TrimStartDropsSpaces(s[1..]);
    }
  }

  lemma TrimIsTrimmed(s: string)
    ensures Trimmed(Trim(s))
  {
    TrimStartDropsSpaces(s);
    TrimEndKeepsHead(TrimStart(s));
  }

  lemma TrimIdempotent(s: string)
    ensures Trim(Trim(s)) == Trim(s)
  {
    TrimIsTrimmed(s);
  }

  // ----- What trimming and lower-casing mean -----

  /** A space, or one of the control characters from tab to carriage return, by code point. */
  predicate IsBlank(c: char) {
    c as int == 32 || 9 <= c as int <= 13
  }

  predicate Blank(s: string) {
    forall i :: 0 <= i < |s| ==> IsBlank(s[i])
  }

  lemma SameBlanks(c: char)
    ensures IsSpace(c) <==> IsBlank(c)
  {
  }

  lemma {:induction false} TrimStartCuts(s: string) returns (left: string)
    ensures s == left + TrimStart(s) && Blank(left)
  {
    if s != "" && IsSpace(s[0]) {
      var rest := TrimStartCuts(s[1..]);
      return [s[0]] + rest;
    }
    return "";
  }

  lemma {:induction false} TrimEndCuts(s: string) returns (right: string)
    ensures s == TrimEnd(s) + right && Blank(right)
  {
    if s != "" && IsSpace(s[|s| - 1]) {
      var rest := TrimEndCuts(s[..|s| - 1]);
      return rest + [s[|s| - 1]];
    }
    return "";
  }

  /** Trimming cuts a blank text off at either end, and as much of it as there is. */
  lemma TrimCutsBlanks(s: string) returns (left: string, right: string)
    ensures s == left + Trim(s) + right && Blank(left) && Blank(right)
    ensures Trim(s) == "" <==> Blank(s)
    ensures Trim(s) != "" ==> !IsBlank(Trim(s)[0]) && !IsBlank(Trim(s)[|Trim(s)| - 1])
  {
    hide TrimStart, TrimEnd, IsBlank;
    left := TrimStartCuts(s);
    right := TrimEndCuts(TrimStart(s));
    TrimIsTrimmed(s);
    if Trim(s) == "" {
      forall i | 0 <= i < |s| ensures IsBlank(s[i]) {
        assert s[i] == if i < |left| then left[i] else right[i - |left|];
      }
    } else {
      SameBlanks(Trim(s)[0]);
      SameBlanks(Trim(s)[|Trim(s)| - 1]);
      assert s[|left|] == Trim(s)[0];
    }
  }

  /** Lower-casing changes A to Z and the Kelvin sign, and nothing else: by code point. */
  lemma LowerLetters(s: string, i: nat)
    requires i < |s|
    ensures var c := s[i] as int;
      ToLower(s)[i] as int == if 65 <= c <= 90 then c + 32 else if c == 0x212A then 107 else c
  {
    assert ToLower(s)[i] == LowerChar(s[i]);
  }
}
