/** The few Python `str` operations the token layer relies on: `sep.join`,
    `s.split(c)` for a one-character separator, and ASCII `upper`/`capitalize`. */
module Strings {

  /** Python's `sep.join(parts)`. */
  function Join(parts: seq<string>, sep: string): string
  {
    if |parts| == 0 then ""
    else if |parts| == 1 then parts[0]
    else parts[0] + sep + Join(parts[1..], sep)
  }

  /** Joining three parts puts the separator between each neighbouring pair. */
  lemma JoinThree(a: string, b: string, c: string, sep: string)
    ensures Join([a, b, c], sep) == a + sep + b + sep + c
  {
    var parts := [a, b, c];
    assert parts[1..] == [b, c] && parts[1..][1..] == [c];
    assert Join([b, c], sep) == b + sep + c;
    assert a + sep + (b + sep + c) == a + sep + b + sep + c;
  }

  /** Python's `s.split(c)`: the maximal pieces of `s` between occurrences of
      `c`; empty pieces are kept, and the empty string splits into `[""]`. */
  function Split(s: string, c: char): (r: seq<string>)
    ensures |r| >= 1
    ensures forall i :: 0 <= i < |r| ==> c !in r[i]
    ensures Join(r, [c]) == s
  {
    if s == [] then [""]
    else
      var rest := Split(s[1..], c);
      if s[0] == c then
        assert ([""] + rest)[1..] == rest;
        [""] + rest
      else
        var r := [[s[0]] + rest[0]] + rest[1..];
        assert r[1..] == rest[1..];
        assert s == [s[0]] + s[1..];
        r
  }

  /** Splitting a piece free of `c` followed by `c` peels that piece off. */
  lemma {:induction false} SplitPrefix(a: string, b: string, c: char)
    requires c !in a
    ensures Split(a + [c] + b, c) == [a] + Split(b, c)
  {
    if a == [] {
      assert a + [c] + b == [c] + b;
      assert ([c] + b)[1..] == b;
    } else {
      var whole := a + [c] + b;
      SplitPrefix(a[1..], b, c);
      assert whole[0] == a[0] != c;
      assert whole[1..] == a[1..] + [c] + b;
      var rest := Split(whole[1..], c);
      assert rest[0] == a[1..] && rest[1..] == Split(b, c);
      assert [a[0]] + a[1..] == a;
    }
  }

  /** A string free of `c` splits into itself alone. */
  lemma {:induction false} SplitNoSeparator(a: string, c: char)
    requires c !in a
    ensures Split(a, c) == [a]
  {
    if a != [] {
      SplitNoSeparator(a[1..], c);
      assert [a[0]] + a[1..] == a;
    }
  }

  /** `split` inverts `join` when no part contains the separator. */
  lemma {:induction false} SplitJoin(parts: seq<string>, c: char)
    requires |parts| >= 1
    requires forall i :: 0 <= i < |parts| ==> c !in parts[i]
    ensures Split(Join(parts, [c]), c) == parts
  {
    if |parts| == 1 {
      SplitNoSeparator(parts[0], c);
    } else {
      SplitJoin(parts[1..], c);
      SplitPrefix(parts[0], Join(parts[1..], [c]), c);
      assert [parts[0]] + parts[1..] == parts;
    }
  }

  predicate IsAsciiUpper(ch: char) { 'A' <= ch <= 'Z' }

  predicate IsAsciiLower(ch: char) { 'a' <= ch <= 'z' }

  function UpperChar(ch: char): char
  {
    if IsAsciiLower(ch) then (ch as int - 32) as char else ch
  }

  function LowerChar(ch: char): char
  {
    if IsAsciiUpper(ch) then (ch as int + 32) as char else ch
  }

  /** Python's `s.upper()`, restricted to the ASCII letters. */
  function Upper(s: string): string
  {
    seq(|s|, i requires 0 <= i < |s| => UpperChar(s[i]))
  }

  /** Python's `s.lower()`, restricted to the ASCII letters. */
  function Lower(s: string): string
  {
    seq(|s|, i requires 0 <= i < |s| => LowerChar(s[i]))
  }

  /** Python's `s.capitalize()`: first character upper-cased, the rest lower-cased. */
  function Capitalize(s: string): string
  {
    if s == [] then [] else [UpperChar(s[0])] + Lower(s[1..])
  }

  /** No ASCII upper-case letter in `s` from position `k` on. */
  predicate NoUpperFrom(s: string, k: nat)
  {
    forall i :: k <= i < |s| ==> !IsAsciiUpper(s[i])
  }

  /** When everything after the first character is already lower-case,
      `capitalize` touches only the first character. */
  lemma CapitalizeFirstOnly(s: string)
    requires s != [] && NoUpperFrom(s, 1)
    ensures Capitalize(s) == [UpperChar(s[0])] + s[1..]
  {
    assert Lower(s[1..]) == s[1..];
  }

  /** Case mapping never turns a non-space into a space or back. */
  lemma CapitalizeKeepsSpaces(s: string)
    ensures ' ' in Capitalize(s) <==> ' ' in s
  {
    if s != [] {
      var c := Capitalize(s);
      if ' ' in c {
        var i :| 0 <= i < |c| && c[i] == ' ';
        CapitalizeAt(s, i);
      }
      if ' ' in s {
        var i :| 0 <= i < |s| && s[i] == ' ';
        CapitalizeAt(s, i);
      }
    }
  }

  /** `capitalize` works character by character: upper-case first, lower-case
      after, and a character maps to a space exactly when it is one. */
  lemma CapitalizeAt(s: string, i: nat)
    requires i < |s|
    ensures |Capitalize(s)| == |s|
    ensures Capitalize(s)[i] == if i == 0 then UpperChar(s[0]) else LowerChar(s[i])
    ensures Capitalize(s)[i] == ' ' <==> s[i] == ' '
  {
    var tail := Lower(s[1..]);
    assert Capitalize(s) == [UpperChar(s[0])] + tail;
    if i > 0 {
      assert tail[i - 1] == LowerChar(s[i]);
    }
    CaseKeepsSpace(s[i]);
  }

  /** Changing the case of a character never makes or removes a space. */
  lemma CaseKeepsSpace(ch: char)
    ensures UpperChar(ch) == ' ' <==> ch == ' '
    ensures LowerChar(ch) == ' ' <==> ch == ' '
  {
    if IsAsciiLower(ch) {
      assert UpperChar(ch) as int == ch as int - 32 >= 'A' as int;
    }
    if IsAsciiUpper(ch) {
      assert LowerChar(ch) as int == ch as int + 32 >= 'a' as int;
    }
  }

  /** Every character is an ASCII upper-case letter. */
  predicate AllUpper(s: string)
  {
    forall ch :: ch in s ==> IsAsciiUpper(ch)
  }

  /** `upper(capitalize(w)) == w` for an upper-case ASCII word such as an
      enum member name: the capitalised form is a tag value that maps back. */
  lemma UpperCapitalize(s: string)
    requires AllUpper(s)
    ensures Upper(Capitalize(s)) == s
  {
    if s != [] {
      var c := Capitalize(s);
      forall i | 0 <= i < |s| ensures Upper(c)[i] == s[i] {
        assert s[i] in s;
        if i > 0 { assert c[i] == LowerChar(s[i]); }
      }
    }
  }
}
