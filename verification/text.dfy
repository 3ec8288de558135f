/** The JavaScript string operations the hotspot feed parser is built from:
    `String.prototype.split` on a one-character separator, its inverse
    `Array.prototype.join`, and `String.prototype.trim`. */
module Text {

  /** `s.split(sep)` for a one-character separator: the pieces between
      separators, always at least one (an empty string splits to `[""]`). */
  function Split(s: string, sep: char): (parts: seq<string>)
    ensures |parts| >= 1
    ensures forall i :: 0 <= i < |parts| ==> sep !in parts[i]
  {
    if s == [] then [""]
    else
      var rest := Split(s[1..], sep);
      if s[0] == sep then [""] + rest
      else [[s[0]] + rest[0]] + rest[1..]
  }

  /** `parts.join(sep)`. */
  function Join(parts: seq<string>, sep: char): string
    requires |parts| >= 1
  {
    if |parts| == 1 then parts[0] else parts[0] + [sep] + Join(parts[1..], sep)
  }

  /** Joining the pieces of a split restores the original string. */
  lemma {:induction false} JoinSplit(s: string, sep: char)
    ensures Join(Split(s, sep), sep) == s
  {
    if s != [] {
      var rest := Split(s[1..], sep);
      JoinSplit(s[1..], sep);
      if s[0] == sep {
        assert Split(s, sep) == [""] + rest;
        assert Split(s, sep)[1..] == rest;
      } else {
        var parts := Split(s, sep);
        assert parts == [[s[0]] + rest[0]] + rest[1..];
        if |rest| == 1 {
          assert parts == [[s[0]] + rest[0]];
        } else {
          assert parts[1..] == rest[1..];
          assert Join(rest, sep) == rest[0] + [sep] + Join(rest[1..], sep);
        }
      }
    }
  }

  /** Splitting a join of separator-free pieces gives the pieces back. */
  lemma {:induction false} SplitJoin(parts: seq<string>, sep: char)
    requires |parts| >= 1
    requires forall i :: 0 <= i < |parts| ==> sep !in parts[i]
    ensures Split(Join(parts, sep), sep) == parts
  {
    if |parts| == 1 {
      SplitPiece(parts[0], sep);
    } else {
      SplitJoin(parts[1..], sep);
      SplitPrefix(parts[0], Join(parts[1..], sep), sep);
      assert parts == [parts[0]] + parts[1..];
    }
  }

  /** A separator-free string is its own only piece. */
  lemma {:induction false} SplitPiece(p: string, sep: char)
    requires sep !in p
    ensures Split(p, sep) == [p]
  {
    if p != [] {
      assert sep !in p[1..] by {
        forall i | 0 <= i < |p[1..]| ensures p[1..][i] != sep {
          assert p[1..][i] == p[i + 1];
        }
      }
      SplitPiece(p[1..], sep);
      assert [p[0]] + p[1..] == p;
    }
  }

  /** Splitting `p + [sep] + t`, with no separator in `p`, yields `p` followed by
      the pieces of `t`. */
  lemma {:induction false} SplitPrefix(p: string, t: string, sep: char)
    requires sep !in p
    ensures Split(p + [sep] + t, sep) == [p] + Split(t, sep)
  {
    if p == [] {
      assert p + [sep] + t == [sep] + t;
      assert ([sep] + t)[1..] == t;
    } else {
      var s := p + [sep] + t;
      assert s[0] == p[0];
      assert s[1..] == p[1..] + [sep] + t;
      SplitPrefix(p[1..], t, sep);
      assert [p[0]] + p[1..] == p;
    }
  }

  /** The characters `String.prototype.trim` removes: ECMAScript WhiteSpace
      (tab, vertical tab, form feed, space, no-break space, byte-order mark and
      the Unicode space separators) and LineTerminator (line feed, carriage
      return, line and paragraph separators). */
  predicate IsSpace(c: char)
  {
    var n := c as int;
    n == 0x09 || n == 0x0A || n == 0x0B || n == 0x0C || n == 0x0D || n == 0x20
    || n == 0xA0 || n == 0x1680 || (0x2000 <= n <= 0x200A)
    || n == 0x2028 || n == 0x2029 || n == 0x202F || n == 0x205F
    || n == 0x3000 || n == 0xFEFF
  }

  predicate AllSpace(s: string)
  {
    forall i :: 0 <= i < |s| ==> IsSpace(s[i])
  }

  lemma AllSpaceConcat(u: string, v: string)
    requires AllSpace(u) && AllSpace(v)
    ensures AllSpace(u + v)
  {
    forall i | 0 <= i < |u + v| ensures IsSpace((u + v)[i]) {
      if i < |u| { assert (u + v)[i] == u[i]; }
      else { assert (u + v)[i] == v[i - |u|]; }
    }
  }

  /** The index of the first non-space character, or `|s|`. */
  function TrimStart(s: string): (a: nat)
    ensures a <= |s|
    ensures AllSpace(s[..a])
    ensures a < |s| ==> !IsSpace(s[a])
  {
    if s == [] || !IsSpace(s[0]) then 0
    else
      var a := 1 + TrimStart(s[1..]);
      assert forall i :: 1 <= i < a ==> s[..a][i] == s[1..][..a - 1][i - 1];
      a
  }

  /** One past the index of the last non-space character, or 0. */
  function TrimEnd(s: string): (b: nat)
    ensures b <= |s|
    ensures AllSpace(s[b..])
    ensures b > 0 ==> !IsSpace(s[b - 1])
  {
    if s == [] || !IsSpace(s[|s| - 1]) then |s|
    else
      var b := TrimEnd(s[..|s| - 1]);
      assert forall i :: b <= i < |s| - 1 ==> s[i] == s[..|s| - 1][i];
      b
  }

  /** `s.trim()`: `s` without its leading and trailing whitespace. */
  function Trim(s: string): (r: string)
    ensures |r| <= |s|
    ensures r != [] ==> !IsSpace(r[0]) && !IsSpace(r[|r| - 1])
    ensures r == [] <==> AllSpace(s)
  {
    var a := TrimStart(s);
    var t := s[a..];
    var b := TrimEnd(t);
    assert b > 0 ==> t[..b][0] == s[a] && t[..b][b - 1] == t[b - 1] && !IsSpace(s[a]);
    assert b == 0 ==> AllSpace(s) by {
      if b == 0 {
        assert s == s[..a] + t[b..];
        AllSpaceConcat(s[..a], t[b..]);
      }
    }
    t[..b]
  }

  /** Trimming keeps every character between the first and last non-space ones:
      the result is an infix of `s` and only whitespace was cut around it. */
  lemma TrimIsInfix(s: string)
    ensures exists a, b ::
              && 0 <= a <= b <= |s|
              && Trim(s) == s[a..b]
              && AllSpace(s[..a])
              && AllSpace(s[b..])
  {
    var a := TrimStart(s);
    var t := s[a..];
    var b := TrimEnd(t);
    assert Trim(s) == s[a..a + b];
    assert s[a + b..] == t[b..];
  }
}
