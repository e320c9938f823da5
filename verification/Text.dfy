/** The string operations the system uses, on ASCII text. */
module Text {

  // ------------------------------------------------------------------ order

  /** The order of Go's `<` on strings. */
  predicate Less(a: string, b: string) {
    if b == [] then false
    else if a == [] then true
    else a[0] < b[0] || (a[0] == b[0] && Less(a[1..], b[1..]))
  }

  lemma {:induction false} LessIrreflexive(a: string)
    ensures !Less(a, a)
  {
    if a != [] { LessIrreflexive(a[1..]); }
  }

  lemma {:induction false} LessTransitive(a: string, b: string, c: string)
    requires Less(a, b) && Less(b, c)
    ensures Less(a, c)
  {
    if a != [] && a[0] == b[0] && b[0] == c[0] { LessTransitive(a[1..], b[1..], c[1..]); }
  }

  lemma {:induction false} LessTotal(a: string, b: string)
    ensures Less(a, b) || a == b || Less(b, a)
  {
    if a != [] && b != [] && a[0] == b[0] {
      LessTotal(a[1..], b[1..]);
      if a[1..] == b[1..] {
        assert a == [a[0]] + a[1..] && b == [b[0]] + b[1..];
      }
    }
  }

  /** Two texts are in order when the first ends before they differ, or is smaller where they first differ. */
  lemma {:induction false} LessIff(a: string, b: string)
    ensures Less(a, b) <==>
      exists i :: 0 <= i <= |a| && i < |b| && a[..i] == b[..i] && (i == |a| || a[i] < b[i])
  {
    if a != [] && b != [] {
      LessIff(a[1..], b[1..]);
      if Less(a, b) && a[0] == b[0] {
        var i :| 0 <= i <= |a| - 1 && i < |b| - 1 && a[1..][..i] == b[1..][..i] && (i == |a| - 1 || a[1..][i] < b[1..][i]);
        assert a[..i + 1] == [a[0]] + a[1..][..i] && b[..i + 1] == [b[0]] + b[1..][..i];
      } else if Less(a, b) {
        assert a[..0] == b[..0];
      }
      if i :| 0 < i <= |a| && i < |b| && a[..i] == b[..i] && (i == |a| || a[i] < b[i]) {
        assert a[0] == a[..i][0] == b[..i][0];
        assert a[1..][..i - 1] == a[..i][1..] && b[1..][..i - 1] == b[..i][1..];
      }
    } else if b != [] {
      assert a[..0] == b[..0];
    }
  }

  // ------------------------------------------------------------------ case and search

  function LowerChar(c: char): char {
    if 'A' <= c <= 'Z' then c - 'A' + 'a' else c
  }

  function UpperChar(c: char): char {
    if 'a' <= c <= 'z' then c - 'a' + 'A' else c
  }

  function ToLower(s: string): string {
    seq(|s|, i requires 0 <= i < |s| => LowerChar(s[i]))
  }

  function ToUpper(s: string): string {
    seq(|s|, i requires 0 <= i < |s| => UpperChar(s[i]))
  }

  predicate EqualFold(a: string, b: string) {
    ToLower(a) == ToLower(b)
  }

  predicate Contains(s: string, needle: string) {
    needle <= s || (s != [] && Contains(s[1..], needle))
  }

  /** The same but for the case of letters, which are 32 apart. */
  predicate SameLetter(a: char, b: char) {
    a == b || ('A' <= a <= 'Z' && b as int == a as int + 32) || ('A' <= b <= 'Z' && a as int == b as int + 32)
  }

  lemma EqualFoldIff(a: string, b: string)
    ensures EqualFold(a, b) <==> |a| == |b| && forall i :: 0 <= i < |a| ==> SameLetter(a[i], b[i])
  {
    hide SameLetter, LowerChar;
    assert |ToLower(a)| == |a| && |ToLower(b)| == |b|;
    if |a| == |b| {
      forall i | 0 <= i < |a| ensures ToLower(a)[i] == ToLower(b)[i] <==> SameLetter(a[i], b[i]) {
        SameLetterIff(a[i], b[i]);
      }
    }
  }

  lemma SameLetterIff(a: char, b: char)
    ensures LowerChar(a) == LowerChar(b) <==> SameLetter(a, b)
  {
  }

  /** Changing case keeps a text the same but for case, and leaves no letter of the other case. */
  lemma CaseChanges(s: string)
    ensures EqualFold(ToLower(s), s) && EqualFold(ToUpper(s), s)
    ensures forall c :: c in ToLower(s) ==> !('A' <= c <= 'Z')
    ensures forall c :: c in ToUpper(s) ==> !('a' <= c <= 'z')
  {
    assert ToLower(ToLower(s)) == ToLower(s) == ToLower(ToUpper(s));
  }

  /** A text holds what begins at some position of it. */
  lemma {:induction false} ContainsIff(s: string, needle: string)
    ensures Contains(s, needle) <==> exists i :: 0 <= i <= |s| && needle <= s[i..]
  {
    assert s[0..] == s;
    if s != [] {
      ContainsIff(s[1..], needle);
      assert forall i :: 0 <= i <= |s| - 1 ==> s[1..][i..] == s[i + 1..];
      if i :| 0 <= i <= |s| && needle <= s[i..] {
        if i > 0 { assert s[1..][i - 1..] == s[i..]; }
      }
    }
  }

  /** What occurs in a part occurs in the whole. */
  lemma ContainsInPart(left: string, part: string, right: string, needle: string)
    requires Contains(part, needle)
    ensures Contains(left + part + right, needle)
  {
    hide Contains;
    ContainsIff(part, needle);
    var i :| 0 <= i <= |part| && needle <= part[i..];
    var s := left + part + right;
    assert s[|left| + i..] == part[i..] + right;
    ContainsIff(s, needle);
  }

  /** The spaces of ASCII; the last two are vertical tab and form feed. */
  predicate IsSpace(c: char) {
    c == ' ' || c == '\t' || c == '\n' || c == '\r' || c == '\U{0b}' || c == '\U{0c}'
  }

  function TrimSpace(s: string): string
    decreases |s|
  {
    if s != [] && IsSpace(s[0]) then TrimSpace(s[1..])
    else if s != [] && IsSpace(s[|s| - 1]) then TrimSpace(s[..|s| - 1])
    else s
  }

  predicate IsTrimmed(s: string) {
    s == [] || (!IsSpace(s[0]) && !IsSpace(s[|s| - 1]))
  }

  lemma {:induction false} TrimIsTrimmed(s: string)
    ensures IsTrimmed(TrimSpace(s))
    decreases |s|
  {
    if s != [] && IsSpace(s[0]) { TrimIsTrimmed(s[1..]); }
    else if s != [] && IsSpace(s[|s| - 1]) { TrimIsTrimmed(s[..|s| - 1]); }
  }

  predicate IsBlank(s: string) {
    forall c :: c in s ==> c in " \t\n\r\U{0b}\U{0c}"
  }

  lemma BlankAndSpace(s: string, c: char)
    requires IsBlank(s) && IsSpace(c)
    ensures IsBlank([c] + s) && IsBlank(s + [c])
  {
  }

  /** Trimming takes spaces from both ends, and only spaces. */
  lemma {:induction false} TrimTakesSpaces(s: string)
    ensures exists left, right :: IsBlank(left) && IsBlank(right) && s == left + TrimSpace(s) + right
    decreases |s|
  {
    hide IsBlank, IsSpace;
    if s != [] && IsSpace(s[0]) {
      var c, rest := s[0], s[1..];
      TrimTakesSpaces(rest);
      var left, right :| IsBlank(left) && IsBlank(right) && rest == left + TrimSpace(rest) + right;
      BlankAndSpace(left, c);
      assert s == [c] + rest == [c] + left + TrimSpace(s) + right;
    } else if s != [] && IsSpace(s[|s| - 1]) {
      var c, rest := s[|s| - 1], s[..|s| - 1];
      TrimTakesSpaces(rest);
      var left, right :| IsBlank(left) && IsBlank(right) && rest == left + TrimSpace(rest) + right;
      BlankAndSpace(right, c);
      assert s == rest + [c] == left + TrimSpace(s) + (right + [c]);
    } else {
      NothingIsBlank();
      assert s == "" + TrimSpace(s) + "";
    }
  }

  lemma NothingIsBlank()
    ensures IsBlank("")
  {
  }

  lemma {:induction false} TrimAddsNothing(s: string, c: char)
    requires c !in s
    ensures c !in TrimSpace(s)
    decreases |s|
  {
    if s != [] && IsSpace(s[0]) { TrimAddsNothing(s[1..], c); }
    else if s != [] && IsSpace(s[|s| - 1]) { TrimAddsNothing(s[..|s| - 1], c); }
  }

  /** Trimming again changes nothing, in either case of the letters. */
  lemma TrimAgain(s: string)
    ensures TrimSpace(TrimSpace(s)) == TrimSpace(s)
    ensures ToUpper(TrimSpace(ToUpper(TrimSpace(s)))) == ToUpper(TrimSpace(s))
    ensures ToLower(TrimSpace(ToLower(TrimSpace(s)))) == ToLower(TrimSpace(s))
  {
    TrimIsTrimmed(s);
    var t := TrimSpace(s);
    assert IsTrimmed(ToUpper(t)) && IsTrimmed(ToLower(t));
    assert ToUpper(ToUpper(t)) == ToUpper(t) && ToLower(ToLower(t)) == ToLower(t);
  }

  // ------------------------------------------------------------------ splitting at '|'

  /** The first piece of `strings.SplitN(s, "|", n)` for `n > 1`. */
  function FirstPiece(s: string): string {
    if s == [] || s[0] == '|' then [] else [s[0]] + FirstPiece(s[1..])
  }

  lemma {:induction false} FirstPieceOf(head: string, rest: string)
    requires '|' !in head
    ensures FirstPiece(head + "|" + rest) == head
  {
    var s := head + "|" + rest;
    if head != [] {
      assert s[1..] == head[1..] + "|" + rest;
      FirstPieceOf(head[1..], rest);
      assert head == [head[0]] + head[1..];
    }
  }

  /** Text up to the first bar determines both halves. */
  lemma SplitUnique(a: string, b: string, a': string, b': string)
    requires '|' !in a && '|' !in a'
    requires a + "|" + b == a' + "|" + b'
    ensures a == a' && b == b'
  {
    FirstPieceOf(a, b);
    FirstPieceOf(a', b');
    assert (a + "|" + b)[|a| + 1..] == b;
    assert (a' + "|" + b')[|a'| + 1..] == b';
  }
}
