/** The few Python string builtins the exporter relies on: `str.strip()`,
    `str.rstrip(chars)`, `str.split(sep)` and `sep.join(parts)`. */
module Text {

  /** Python's `str.isspace()` for one code point. */
  predicate IsSpace(c: char)
  {
    var n := c as int;
    (9 <= n <= 13) || (28 <= n <= 32) || n == 0x85 || n == 0xA0 || n == 0x1680
    || (0x2000 <= n <= 0x200A) || n == 0x2028 || n == 0x2029 || n == 0x202F
    || n == 0x205F || n == 0x3000
  }

  predicate IsSlash(c: char)
  {
    c == '/'
  }

  /** `s.rstrip(...)`: drop every trailing character that `drop` accepts. */
  function RStrip(s: string, drop: char -> bool): (r: string)
    ensures |r| <= |s| && r == s[..|r|]
    ensures forall i :: |r| <= i < |s| ==> drop(s[i])
    ensures r == [] || !drop(r[|r| - 1])
    decreases |s|
  {
    if s == [] || !drop(s[|s| - 1]) then s else RStrip(s[..|s| - 1], drop)
  }

  /** `s.lstrip(...)`: drop every leading character that `drop` accepts. */
  function LStrip(s: string, drop: char -> bool): (r: string)
    ensures |r| <= |s| && r == s[|s| - |r|..]
    ensures forall i :: 0 <= i < |s| - |r| ==> drop(s[i])
    ensures r == [] || !drop(r[0])
    decreases |s|
  {
    if s == [] || !drop(s[0]) then s else LStrip(s[1..], drop)
  }

  /** Every character of `s` is whitespace. */
  predicate Blank(s: string)
  {
    forall k :: 0 <= k < |s| ==> IsSpace(s[k])
  }

  /** `s.strip()`: the infix of `s` left once surrounding whitespace is gone.
      Everything cut from either end is whitespace, and what is kept neither
      starts nor ends with whitespace, so the cut is the largest possible. */
  function Strip(s: string): (r: string)
    ensures exists i, j :: 0 <= i <= j <= |s| && r == s[i..j] && Blank(s[..i]) && Blank(s[j..])
    ensures r == [] || (!IsSpace(r[0]) && !IsSpace(r[|r| - 1]))
  {
    var t := RStrip(s, IsSpace);
    var r := LStrip(t, IsSpace);
    StripEnds(s, t, r);
    StripCut(s, t, r);
    r
  }

  /** The kept part of `Strip` has no whitespace at either end. */
  lemma StripEnds(s: string, t: string, r: string)
    requires t == RStrip(s, IsSpace) && r == LStrip(t, IsSpace)
    ensures r == [] || (!IsSpace(r[0]) && !IsSpace(r[|r| - 1]))
  {
    assert r != [] ==> r[|r| - 1] == t[|t| - 1];
  }

  /** The two cuts of `Strip` are whitespace. */
  lemma StripCut(s: string, t: string, r: string)
    requires t == RStrip(s, IsSpace) && r == LStrip(t, IsSpace)
    ensures exists i, j :: 0 <= i <= j <= |s| && r == s[i..j] && Blank(s[..i]) && Blank(s[j..])
  {
    var i, j := |t| - |r|, |t|;
    StripCutBounds(s, t, r);
    assert 0 <= i <= j <= |s| && r == s[i..j] && Blank(s[..i]) && Blank(s[j..]);
  }

  lemma StripCutBounds(s: string, t: string, r: string)
    requires t == RStrip(s, IsSpace) && r == LStrip(t, IsSpace)
    ensures r == s[|t| - |r|..|t|] && Blank(s[..|t| - |r|]) && Blank(s[|t|..])
  {
    LeadingCutBlank(s, t, r);
  }

  lemma LeadingCutBlank(s: string, t: string, r: string)
    requires t == RStrip(s, IsSpace) && r == LStrip(t, IsSpace)
    ensures Blank(s[..|t| - |r|])
  {
    assert s[..|t| - |r|] == t[..|t| - |r|];
  }

  /** `strip()` adds no character, and nothing is left exactly when `s` is
      blank. */
  lemma StripInfix(s: string)
    ensures forall c :: c in Strip(s) ==> c in s
    ensures Strip(s) == [] <==> forall i :: 0 <= i < |s| ==> IsSpace(s[i])
  {
    var t := RStrip(s, IsSpace);
    var r := LStrip(t, IsSpace);
    var k := |t| - |r|;
    assert r == s[k..|t|];
    if r == [] {
      forall i | 0 <= i < |s| ensures IsSpace(s[i]) {
        if i < |t| { assert IsSpace(t[i]); }
      }
    } else {
      assert !IsSpace(s[k]);
    }
  }

  /** A string `strip()` leaves alone: no whitespace at either end. */
  predicate Trimmed(s: string)
  {
    s == [] || (!IsSpace(s[0]) && !IsSpace(s[|s| - 1]))
  }

  lemma StripTrimmed(s: string)
    requires Trimmed(s)
    ensures Strip(s) == s
  {
    if s != [] {
      assert RStrip(s, IsSpace) == s;
      assert LStrip(s, IsSpace) == s;
    }
  }

  /** `sep.join(parts)`. */
  function Join(parts: seq<string>, sep: char): (r: string)
    decreases |parts|
  {
    if |parts| == 0 then []
    else if |parts| == 1 then parts[0]
    else parts[0] + [sep] + Join(parts[1..], sep)
  }

  /** `s.split(sep)`: the maximal separator-free pieces, empty ones included. */
  function Split(s: string, sep: char): (parts: seq<string>)
    ensures |parts| >= 1
    ensures forall i :: 0 <= i < |parts| ==> sep !in parts[i]
    decreases |s|
  {
    if s == [] then [[]]
    else
      var rest := Split(s[1..], sep);
      if s[0] == sep then [[]] + rest
      else [[s[0]] + rest[0]] + rest[1..]
  }

  /** Splitting and joining on the same separator gives the string back. */
  lemma {:induction false} JoinSplit(s: string, sep: char)
    ensures Join(Split(s, sep), sep) == s
    decreases |s|
  {
    if s != [] {
      var rest := Split(s[1..], sep);
      JoinSplit(s[1..], sep);
      if s[0] != sep {
        if |rest| == 1 {
          assert Split(s, sep) == [[s[0]] + rest[0]];
        } else {
          assert Split(s, sep)[1..] == rest[1..];
          assert Join(Split(s, sep), sep) == [s[0]] + rest[0] + [sep] + Join(rest[1..], sep);
        }
      } else {
        assert Split(s, sep)[1..] == rest;
      }
    }
  }

  /** Joining separator-free pieces and splitting again gives the pieces back:
      order and repeated pieces survive. */
  lemma {:induction false} SplitJoin(parts: seq<string>, sep: char)
    requires |parts| >= 1
    requires forall i :: 0 <= i < |parts| ==> sep !in parts[i]
    ensures Split(Join(parts, sep), sep) == parts
    decreases |parts|, |parts[0]|
  {
    var p := parts[0];
    if p == [] {
      if |parts| > 1 {
        var tail := Join(parts[1..], sep);
        assert Join(parts, sep) == [sep] + tail;
        SplitJoin(parts[1..], sep);
        assert ([sep] + tail)[1..] == tail;
      }
    } else {
      var shorter := [p[1..]] + parts[1..];
      assert shorter[1..] == parts[1..];
      assert Join(parts, sep) == [p[0]] + Join(shorter, sep);
      SplitJoin(shorter, sep);
      assert ([p[0]] + Join(shorter, sep))[1..] == Join(shorter, sep);
      assert [p[0]] + p[1..] == p;
      assert [[p[0]] + p[1..]] + parts[1..] == parts;
    }
  }
}
