/** Stat names as they are stored: trimmed, upper-cased and checked for shape.  Letters are ASCII. */
module StatNames {

  predicate IsSpace(c: char) { c == ' ' || '\t' <= c <= '\r' }

  predicate IsUpper(c: char) { 'A' <= c <= 'Z' }

  function Upper(c: char): char {
    if 'a' <= c <= 'z' then (c as int - 'a' as int + 'A' as int) as char else c
  }

  function TrimStart(s: string): string {
    if s != [] && IsSpace(s[0]) then TrimStart(s[1..]) else s
  }

  function TrimEnd(s: string): string {
    if s != [] && IsSpace(s[|s| - 1]) then TrimEnd(s[..|s| - 1]) else s
  }

  function UpperAll(s: string): string {
    seq(|s|, i requires 0 <= i < |s| => Upper(s[i]))
  }

  function Normalise(s: string): string { UpperAll(TrimEnd(TrimStart(s))) }

  predicate IsWellFormed(s: string) {
    s != [] && IsUpper(s[0]) && forall c :: c in s[1..] ==> IsUpper(c) || '0' <= c <= '9' || c == '_'
  }

  /** A stored name is its own normal form, so sending it back stores the same name. */
  lemma WellFormedNamesAreNormal(s: string)
    requires IsWellFormed(s)
    ensures Normalise(s) == s
  {
    forall i | 0 <= i < |s| ensures Upper(s[i]) == s[i] && !IsSpace(s[i]) {
      assert i > 0 ==> s[i] == s[1..][i - 1] && s[i] in s[1..];
    }
    assert TrimEnd(TrimStart(s)) == s;
    assert UpperAll(s) == s;
  }

  // ---------------------------------------------------------------- the characters, one by one

  const LETTERS: string := "ABCDEFGHIJKLMNOPQRSTUVWXYZ"
  const SMALL_LETTERS: string := "abcdefghijklmnopqrstuvwxyz"
  const DIGITS: string := "0123456789"

  lemma LettersInTurn(i: nat)
    requires i < 26
    ensures LETTERS[i] as int == 'A' as int + i && SMALL_LETTERS[i] as int == 'a' as int + i
  {
    assert LETTERS == ['A', 'B', 'C', 'D', 'E', 'F', 'G', 'H', 'I', 'J', 'K', 'L', 'M', 'N', 'O', 'P', 'Q', 'R', 'S',
                       'T', 'U', 'V', 'W', 'X', 'Y', 'Z'];
  }

  /** Small letters have their capitals, everything else is left alone, and capitals are the capitals. */
  lemma CapitalsAreCapitals(c: char)
    ensures IsUpper(c) <==> c in LETTERS
    ensures forall i :: 0 <= i < 26 ==> Upper(SMALL_LETTERS[i]) == LETTERS[i]
    ensures c !in SMALL_LETTERS ==> Upper(c) == c
  {
    forall i | 0 <= i < 26 ensures LETTERS[i] as int == 'A' as int + i && SMALL_LETTERS[i] as int == 'a' as int + i {
      LettersInTurn(i);
    }
    if IsUpper(c) {
      assert LETTERS[c as int - 'A' as int] == c;
    }
    if 'a' <= c <= 'z' {
      assert SMALL_LETTERS[c as int - 'a' as int] == c;
    }
  }

  /** A name starts with a capital and goes on with capitals, digits and underscores. */
  lemma ShapeOfAName(s: string)
    ensures IsWellFormed(s) <==>
              |s| > 0 && s[0] in LETTERS
              && forall i :: 1 <= i < |s| ==> s[i] in LETTERS || s[i] in DIGITS || s[i] == '_'
  {
    forall c: char ensures IsUpper(c) <==> c in LETTERS {
      CapitalsAreCapitals(c);
    }
    forall c: char ensures '0' <= c <= '9' <==> c in DIGITS {
    }
    assert |s| > 0 ==> forall i :: 1 <= i < |s| ==> s[i] == s[1..][i - 1];
  }

  /** White space is the space and the five control characters from the tab to the carriage return. */
  lemma SpacesAre(c: char)
    ensures IsSpace(c) <==> c as int == 32 || c as int in {9, 10, 11, 12, 13}
  {
  }

  /** Trimming takes white space off both ends, and nothing else off either. */
  lemma {:induction false} TrimTakesSpaces(s: string) returns (front: string, back: string)
    ensures s == front + TrimEnd(TrimStart(s)) + back
    ensures forall c :: c in front || c in back ==> IsSpace(c)
    ensures var t := TrimEnd(TrimStart(s)); t != [] ==> !IsSpace(t[0]) && !IsSpace(t[|t| - 1])
  {
    hide IsSpace;
    front := TrimStartTakes(s);
    back := TrimEndTakes(TrimStart(s));
    assert s == front + (TrimEnd(TrimStart(s)) + back);
  }

  lemma {:induction false} TrimStartTakes(s: string) returns (front: string)
    ensures s == front + TrimStart(s) && (forall c :: c in front ==> IsSpace(c))
    ensures TrimStart(s) != [] ==> !IsSpace(TrimStart(s)[0])
  {
    hide IsSpace;
    if s != [] && IsSpace(s[0]) {
      front := TrimStartTakes(s[1..]);
      front := [s[0]] + front;
    } else {
      front := [];
    }
  }

  lemma {:induction false} TrimEndTakes(s: string) returns (back: string)
    ensures s == TrimEnd(s) + back && (forall c :: c in back ==> IsSpace(c))
    ensures TrimEnd(s) != [] ==> !IsSpace(TrimEnd(s)[|TrimEnd(s)| - 1])
  {
    hide IsSpace;
    if s != [] && IsSpace(s[|s| - 1]) {
      back := TrimEndTakes(s[..|s| - 1]);
      back := back + [s[|s| - 1]];
    } else {
      back := [];
    }
  }

  // ---------------------------------------------------------------- padding and case

  lemma {:induction false} PaddingInFront(s: string, c: char)
    requires IsSpace(c)
    ensures Normalise([c] + s) == Normalise(s)
  {
    assert ([c] + s)[1..] == s;
  }

  lemma {:induction false} EndAfterStart(s: string, c: char)
    requires IsSpace(c)
    ensures TrimEnd(TrimStart(s + [c])) == TrimEnd(TrimStart(s))
  {
    hide IsSpace;
    if s == [] {
      assert (s + [c])[1..] == [] && s + [c] == [c];
      assert TrimStart([c]) == [];
    } else if IsSpace(s[0]) {
      assert (s + [c])[1..] == s[1..] + [c];
      EndAfterStart(s[1..], c);
    } else {
      assert (s + [c])[..|s + [c]| - 1] == s;
    }
  }

  /** White space around a name makes no difference to what is stored. */
  lemma PaddingBehind(s: string, c: char)
    requires IsSpace(c)
    ensures Normalise(s + [c]) == Normalise(s)
  {
    EndAfterStart(s, c);
  }

  /** Without any, each letter is stored as its capital in its place. */
  lemma NamesKeepTheirLetters(s: string)
    requires s != [] && !IsSpace(s[0]) && !IsSpace(s[|s| - 1])
    ensures |Normalise(s)| == |s| && forall i :: 0 <= i < |s| ==> Normalise(s)[i] == Upper(s[i])
  {
  }
}
