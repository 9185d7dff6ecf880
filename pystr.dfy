/**
 * The few operations on Python `str` values that the endpoint uses:
 * `split(",")`, `strip()`, `lower()`, `startswith(...)` and `endswith(...)`.
 * Strings are sequences of characters; case mapping covers ASCII letters only.
 */
module PyStr {

  /** The characters Python's `str.isspace()` accepts. */
  predicate IsSpace(c: char) {
    c == ' ' || ('\t' <= c <= '\r') || ('\U{1C}' <= c <= '\U{1F}')
    || c == '\U{85}' || c == '\U{A0}' || c == '\U{1680}'
    || ('\U{2000}' <= c <= '\U{200A}') || c == '\U{2028}' || c == '\U{2029}'
    || c == '\U{202F}' || c == '\U{205F}' || c == '\U{3000}'
  }

  predicate IsUpperAscii(c: char) {
    'A' <= c <= 'Z'
  }

  function LowerChar(c: char): char {
    if IsUpperAscii(c) then (c as int + 32) as char else c
  }

  /** `s.lower()`, restricted to ASCII letters. */
  function Lower(s: string): string {
    if s == [] then [] else [LowerChar(s[0])] + Lower(s[1..])
  }

  /** No character of `s` is an upper-case letter. */
  predicate IsLower(s: string) {
    forall i :: 0 <= i < |s| ==> !IsUpperAscii(s[i])
  }

  predicate StartsWith(s: string, prefix: string) {
    |prefix| <= |s| && s[..|prefix|] == prefix
  }

  predicate EndsWith(s: string, suffix: string) {
    |suffix| <= |s| && s[|s| - |suffix|..] == suffix
  }

  function TrimStart(s: string): string {
    if s != [] && IsSpace(s[0]) then TrimStart(s[1..]) else s
  }

  function TrimEnd(s: string): string {
    if s != [] && IsSpace(s[|s| - 1]) then TrimEnd(s[..|s| - 1]) else s
  }

  /** `s.strip()`: whitespace removed from both ends. */
  function Strip(s: string): string {
    TrimEnd(TrimStart(s))
  }

  /** Neither end of `s` is whitespace. */
  predicate IsStripped(s: string) {
    s == [] || (!IsSpace(s[0]) && !IsSpace(s[|s| - 1]))
  }

  /** `s.split(sep)`: the pieces between separators, empty ones included. */
  function Split(s: string, sep: char): (parts: seq<string>)
    ensures |parts| >= 1
  {
    if s == [] then [""]
    else
      var rest := Split(s[1..], sep);
      if s[0] == sep then [""] + rest else [[s[0]] + rest[0]] + rest[1..]
  }

  /** `sep.join(parts)`. */
  function Join(parts: seq<string>, sep: char): string
    requires |parts| >= 1
  {
    if |parts| == 1 then parts[0] else parts[0] + [sep] + Join(parts[1..], sep)
  }

  /** The result of `lower()` has no upper-case letter, keeps the length and
      changes nothing but upper-case letters. */
  lemma {:induction false} LowerProperties(s: string)
    ensures |Lower(s)| == |s| && IsLower(Lower(s))
    ensures forall i :: 0 <= i < |s| ==> Lower(s)[i] == s[i] || (IsUpperAscii(s[i]) && Lower(s)[i] == s[i] + ' ')
  {
    if s != [] {
      LowerProperties(s[1..]);
      assert Lower(s) == [LowerChar(s[0])] + Lower(s[1..]);
      forall i | 0 <= i < |s| ensures !IsUpperAscii(Lower(s)[i]) {
        if i > 0 { assert Lower(s)[i] == Lower(s[1..])[i - 1]; }
      }
    }
  }

  /** Lower-casing a string that has no upper-case letter changes nothing. */
  lemma {:induction false} LowerOfLower(s: string)
    requires IsLower(s)
    ensures Lower(s) == s
  {
    if s != [] {
      assert IsLower(s[1..]) by {
        forall i | 0 <= i < |s| - 1 ensures !IsUpperAscii(s[1..][i]) {
          assert s[1..][i] == s[i + 1];
        }
      }
      LowerOfLower(s[1..]);
    }
  }

  /** Lower-casing keeps a string stripped: no letter is whitespace. */
  lemma LowerKeepsStripped(s: string)
    requires IsStripped(s)
    ensures IsStripped(Lower(s))
  {
    LowerProperties(s);
  }

  /** `strip()` removes only whitespace, and only from the two ends:
      its result is a slice of `s`, and what is cut off is whitespace. */
  lemma StripProperties(s: string)
    ensures IsStripped(Strip(s))
    ensures exists i, j :: 0 <= i <= j <= |s| && Strip(s) == s[i..j]
              && (forall k :: 0 <= k < i ==> IsSpace(s[k]))
              && (forall k :: j <= k < |s| ==> IsSpace(s[k]))
  {
    var i := TrimStartProperties(s);
    var u := s[i..];
    var j := TrimEndProperties(u);
    assert Strip(s) == s[i..i + j];
    forall k | i + j <= k < |s| ensures IsSpace(s[k]) {
      assert s[k] == u[k - i];
    }
  }

  lemma {:induction false} TrimStartProperties(s: string) returns (i: nat)
    ensures i <= |s| && TrimStart(s) == s[i..]
    ensures forall k :: 0 <= k < i ==> IsSpace(s[k])
    ensures i < |s| ==> !IsSpace(s[i])
  {
    if s != [] && IsSpace(s[0]) {
      var i' := TrimStartProperties(s[1..]);
      i := i' + 1;
      assert s[1..][i'..] == s[i..];
      forall k | 0 < k < i ensures IsSpace(s[k]) {
        assert s[k] == s[1..][k - 1];
      }
      if i < |s| { assert s[i] == s[1..][i']; }
    } else {
      i := 0;
    }
  }

  lemma {:induction false} TrimEndProperties(t: string) returns (j: nat)
    ensures j <= |t| && TrimEnd(t) == t[..j]
    ensures forall k :: j <= k < |t| ==> IsSpace(t[k])
    ensures j > 0 ==> !IsSpace(t[j - 1])
  {
    if t != [] && IsSpace(t[|t| - 1]) {
      var t' := t[..|t| - 1];
      j := TrimEndProperties(t');
      assert t'[..j] == t[..j];
      forall k | j <= k < |t| ensures IsSpace(t[k]) {
        if k < |t| - 1 { assert t[k] == t'[k]; }
      }
      if j > 0 { assert t[j - 1] == t'[j - 1]; }
    } else {
      j := |t|;
      assert t[..j] == t;
    }
  }

  /** No piece of `s.split(sep)` contains the separator. */
  lemma {:induction false} SplitPiecesHaveNoSep(s: string, sep: char)
    ensures forall p :: p in Split(s, sep) ==> sep !in p
  {
    if s != [] {
      SplitPiecesHaveNoSep(s[1..], sep);
    }
  }

  /** Splitting at a separator splits the two sides independently. */
  lemma {:induction false} SplitConcat(a: string, b: string, sep: char)
    ensures Split(a + [sep] + b, sep) == Split(a, sep) + Split(b, sep)
  {
    if a == [] {
      assert a + [sep] + b == [sep] + b;
      assert ([sep] + b)[1..] == b;
    } else {
      assert (a + [sep] + b)[1..] == a[1..] + [sep] + b;
      SplitConcat(a[1..], b, sep);
    }
  }

  /** A string without the separator splits into itself alone. */
  lemma {:induction false} SplitWithoutSep(s: string, sep: char)
    requires sep !in s
    ensures Split(s, sep) == [s]
  {
    if s != [] {
      SplitWithoutSep(s[1..], sep);
      assert [s[0]] + s[1..] == s;
    }
  }

  /** Joining the pieces of a split gives back the string. */
  lemma {:induction false} JoinSplit(s: string, sep: char)
    ensures Join(Split(s, sep), sep) == s
  {
    if s != [] {
      var rest := Split(s[1..], sep);
      JoinSplit(s[1..], sep);
      if s[0] == sep {
        assert Split(s, sep)[1..] == rest;
        assert s == [sep] + s[1..];
      } else {
        var parts := Split(s, sep);
        if |rest| == 1 {
          assert s == [s[0]] + s[1..];
        } else {
          assert parts[1..] == rest[1..];
          assert Join(rest, sep) == rest[0] + [sep] + Join(rest[1..], sep);
          assert s == [s[0]] + s[1..];
        }
      }
    }
  }

  /** Splitting a join of separator-free pieces gives back the pieces. */
  lemma {:induction false} SplitJoin(parts: seq<string>, sep: char)
    requires |parts| >= 1
    requires forall p :: p in parts ==> sep !in p
    ensures Split(Join(parts, sep), sep) == parts
  {
    if |parts| == 1 {
      SplitWithoutSep(parts[0], sep);
    } else {
      SplitJoin(parts[1..], sep);
      SplitConcat(parts[0], Join(parts[1..], sep), sep);
      SplitWithoutSep(parts[0], sep);
      assert [parts[0]] + parts[1..] == parts;
    }
  }
}
