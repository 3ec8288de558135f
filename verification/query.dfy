/** How an email address travels from the forgot-password page to the
    reset-password page through a URL query: `encodeURIComponent`, the search
    part react-router's `navigate` keeps, and `URLSearchParams.get` with the
    application/x-www-form-urlencoded parsing of section 5.1 of the WHATWG URL
    Standard ('+' becomes a space, percent-escapes are decoded). Only ASCII is
    encoded, as the email field admits only ASCII addresses. */
module Query {
  import opened Base
  import opened Text

  /** `s.indexOf(c)`: the first position of `c`, if any. */
  function IndexOf(s: string, c: char): (i: Option<nat>)
    ensures i.None? <==> c !in s
    ensures i.Some? ==> i.value < |s| && s[i.value] == c && c !in s[..i.value]
  {
    if s == [] then None
    else if s[0] == c then Some(0)
    else
      match IndexOf(s[1..], c)
      case None => None
      case Some(k) =>
        assert s[..k + 1] == [s[0]] + s[1..][..k];
        Some(k + 1)
  }

  /** The first position of `c` is the `k` before which `c` does not occur. */
  lemma {:induction false} IndexOfIs(s: string, c: char, k: nat)
    requires k < |s| && s[k] == c
    requires forall j :: 0 <= j < k ==> s[j] != c
    ensures IndexOf(s, c) == Some(k)
  {
    if k > 0 {
      IndexOfIs(s[1..], c, k - 1);
    }
  }

  /** The `search` of a path string as react-router's `parsePath` reads it:
      the hash is cut off at the first '#', then the search runs from the
      first '?' (inclusive) to the end. */
  function SearchOf(to: string): (q: string)
    ensures '#' !in q
    ensures q == [] || q[0] == '?'
  {
    var beforeHash := match IndexOf(to, '#') case None => to case Some(h) => to[..h];
    match IndexOf(beforeHash, '?')
    case None => ""
    case Some(k) =>
      assert forall i :: k <= i < |beforeHash| ==> beforeHash[k..][i - k] == beforeHash[i];
      beforeHash[k..]
  }

  predicate IsAscii(c: char)
  {
    c as int < 128
  }

  predicate AllAscii(s: string)
  {
    forall i :: 0 <= i < |s| ==> IsAscii(s[i])
  }

  /** The characters `encodeURIComponent` leaves alone: ASCII letters and
      digits and `- _ . ! ~ * ' ( )`. */
  predicate Unreserved(c: char)
  {
    ('A' <= c <= 'Z') || ('a' <= c <= 'z') || ('0' <= c <= '9')
    || c == '-' || c == '_' || c == '.' || c == '!' || c == '~' || c == '*'
    || c == '\'' || c == '(' || c == ')'
  }

  /** An upper-case hexadecimal digit. */
  function HexDigit(n: nat): (c: char)
    requires n < 16
    ensures Unreserved(c)
  {
    "0123456789ABCDEF"[n]
  }

  /** The value of a hexadecimal digit of either case. */
  function HexValue(c: char): (v: Option<nat>)
    ensures v.Some? ==> v.value < 16
    ensures v.Some? <==> ('0' <= c <= '9') || ('A' <= c <= 'F') || ('a' <= c <= 'f')
  {
    if '0' <= c <= '9' then Some(c as int - '0' as int)
    else if 'A' <= c <= 'F' then Some(c as int - 'A' as int + 10)
    else if 'a' <= c <= 'f' then Some(c as int - 'a' as int + 10)
    else None
  }

  /** Reading a digit back gives the number it was written for. */
  lemma HexRoundTrip(n: nat)
    requires n < 16
    ensures HexValue(HexDigit(n)) == Some(n)
  {
    var s := "0123456789ABCDEF";
    assert s[n] as int == (if n < 10 then '0' as int + n else 'A' as int + n - 10) by {
      if n < 8 {
        assert s[0] == '0' && s[1] == '1' && s[2] == '2' && s[3] == '3';
        assert s[4] == '4' && s[5] == '5' && s[6] == '6' && s[7] == '7';
      } else {
        assert s[8] == '8' && s[9] == '9' && s[10] == 'A' && s[11] == 'B';
        assert s[12] == 'C' && s[13] == 'D' && s[14] == 'E' && s[15] == 'F';
      }
    }
  }

  /** One character as `encodeURIComponent` writes it: itself when
      unreserved, otherwise `%` and two upper-case hex digits. */
  function EncodeChar(c: char): (e: string)
    requires IsAscii(c)
    ensures forall i :: 0 <= i < |e| ==> Unreserved(e[i]) || e[i] == '%'
  {
    if Unreserved(c) then [c] else ['%', HexDigit(c as int / 16), HexDigit(c as int % 16)]
  }

  /** `encodeURIComponent(s)` for an ASCII string: the output holds only
      unreserved characters and the `%` of escapes, so no '+', '&', '=' or '#'. */
  function EncodeUriComponent(s: string): (e: string)
    requires AllAscii(s)
    ensures forall i :: 0 <= i < |e| ==> Unreserved(e[i]) || e[i] == '%'
  {
    if s == [] then []
    else
      var head := EncodeChar(s[0]);
      var tail := EncodeUriComponent(s[1..]);
      EscapedAppend(head, tail);
      head + tail
  }

  /** Two pieces of escaped text make escaped text. */
  lemma EscapedAppend(a: string, b: string)
    requires forall i :: 0 <= i < |a| ==> Unreserved(a[i]) || a[i] == '%'
    requires forall i :: 0 <= i < |b| ==> Unreserved(b[i]) || b[i] == '%'
    ensures forall i :: 0 <= i < |a + b| ==> Unreserved((a + b)[i]) || (a + b)[i] == '%'
  {
    forall i | 0 <= i < |a + b| ensures Unreserved((a + b)[i]) || (a + b)[i] == '%' {
      if i >= |a| { assert (a + b)[i] == b[i - |a|]; }
    }
  }

  /** Percent-decoding: each `%` with two hex digits becomes the character
      of that code; every other character stays. Escapes of bytes from 0x80
      up are kept as text (see README). */
  function PercentDecode(s: string): (r: string)
    ensures |r| <= |s|
    decreases |s|
  {
    if s == [] then []
    else if |s| >= 3 && s[0] == '%' && HexValue(s[1]).Some? && HexValue(s[2]).Some?
            && HexValue(s[1]).value * 16 + HexValue(s[2]).value < 128
    then [(HexValue(s[1]).value * 16 + HexValue(s[2]).value) as char] + PercentDecode(s[3..])
    else [s[0]] + PercentDecode(s[1..])
  }

  /** Decoding an encoding gives the string back. */
  lemma {:induction false} DecodeEncode(s: string)
    requires AllAscii(s)
    ensures PercentDecode(EncodeUriComponent(s)) == s
  {
    if s != [] {
      var c := s[0];
      var head := EncodeChar(c);
      var tail := EncodeUriComponent(s[1..]);
      var e := head + tail;
      DecodeEncode(s[1..]);
      if Unreserved(c) {
        assert e[0] == c && e[1..] == tail;
      } else {
        HexRoundTrip(c as int / 16);
        HexRoundTrip(c as int % 16);
        assert e[0] == '%' && e[1] == HexDigit(c as int / 16) && e[2] == HexDigit(c as int % 16);
        assert e[3..] == tail;
        assert (c as int / 16) * 16 + c as int % 16 == c as int;
      }
      assert s == [c] + s[1..];
    }
  }

  /** Form decoding: '+' becomes a space, then percent-escapes are decoded. */
  function PlusToSpace(s: string): (r: string)
    ensures |r| == |s|
    ensures '+' !in r
    ensures '+' !in s ==> r == s
  {
    if s == [] then [] else [if s[0] == '+' then ' ' else s[0]] + PlusToSpace(s[1..])
  }

  /** '+' to space works piece by piece. */
  lemma {:induction false} PlusToSpaceConcat(s: string, t: string)
    ensures PlusToSpace(s + t) == PlusToSpace(s) + PlusToSpace(t)
  {
    if s != [] {
      var h := [if s[0] == '+' then ' ' else s[0]];
      assert (s + t)[0] == s[0] && (s + t)[1..] == s[1..] + t;
      PlusToSpaceConcat(s[1..], t);
      assert PlusToSpace(s + t) == h + (PlusToSpace(s[1..]) + PlusToSpace(t));
      assert h + (PlusToSpace(s[1..]) + PlusToSpace(t)) == (h + PlusToSpace(s[1..])) + PlusToSpace(t);
    } else {
      assert s + t == t;
    }
  }

  function FormDecode(s: string): string
  {
    PercentDecode(PlusToSpace(s))
  }

  /** Form decoding turns the '+' between two plain pieces into a space. */
  lemma PlusBecomesSpace(a: string, b: string)
    requires '+' !in a && '+' !in b && '%' !in a && '%' !in b
    ensures FormDecode(a + "+" + b) == a + " " + b
  {
    PlusToSpaceConcat(a + "+", b);
    PlusToSpaceConcat(a, "+");
    assert PlusToSpace("+") == " ";
    var r := a + " " + b;
    assert '%' !in r by {
      forall i | 0 <= i < |r| ensures r[i] != '%' {
        if i < |a| { assert r[i] == a[i]; }
        else if i > |a| { assert r[i] == b[i - |a| - 1]; }
      }
    }
    PercentDecodePlain(r);
  }

  /** The name of a `name=value` pair: up to the first '=', or all of it. */
  function NameOf(pair: string): (n: string)
    ensures '=' !in n
  {
    match IndexOf(pair, '=') case None => pair case Some(k) => pair[..k]
  }

  /** The value of a `name=value` pair: after the first '=', or empty. */
  function ValueOf(pair: string): string
  {
    match IndexOf(pair, '=') case None => "" case Some(k) => pair[k + 1..]
  }

  /** Whether a pair is a non-empty one whose decoded name is `name`. */
  predicate Names(pair: string, name: string)
  {
    pair != "" && FormDecode(NameOf(pair)) == name
  }

  /** The position of the first pair from `i` on named `name`, if any. */
  function FirstNamed(pairs: seq<string>, name: string, i: nat): (k: Option<nat>)
    requires i <= |pairs|
    ensures k.Some? ==> i <= k.value < |pairs| && Names(pairs[k.value], name)
    ensures k.Some? ==> forall j :: i <= j < k.value ==> !Names(pairs[j], name)
    ensures k.None? <==> forall j :: i <= j < |pairs| ==> !Names(pairs[j], name)
    decreases |pairs| - i
  {
    if i == |pairs| then None
    else if Names(pairs[i], name) then Some(i)
    else FirstNamed(pairs, name, i + 1)
  }

  /** The decoded value of the first pair named `name`. */
  function FindParam(pairs: seq<string>, name: string): (v: Option<string>)
    ensures v.None? <==> forall i :: 0 <= i < |pairs| ==> !Names(pairs[i], name)
    ensures v.Some? ==> exists i :: 0 <= i < |pairs| && Names(pairs[i], name)
                                   && v.value == FormDecode(ValueOf(pairs[i]))
                                   && forall j :: 0 <= j < i ==> !Names(pairs[j], name)
  {
    match FirstNamed(pairs, name, 0)
    case None => None
    case Some(k) => Some(FormDecode(ValueOf(pairs[k])))
  }

  /** `new URLSearchParams(search).get(name)`: a leading '?' is dropped, the
      rest is cut into pairs at every '&', and the first pair with that name
      gives its value; `null` (`None`) when there is none. */
  function SearchParamsGet(search: string, name: string): Option<string>
  {
    var q := if |search| > 0 && search[0] == '?' then search[1..] else search;
    FindParam(Split(q, '&'), name)
  }

  /** A query of one `name=value` pair whose value needs no decoding returns
      that value. */
  lemma {:induction false} SinglePairGet(name: string, value: string)
    requires name != "" && '=' !in name && '&' !in name && '+' !in name && '%' !in name
    requires '&' !in value
    ensures SearchParamsGet("?" + name + "=" + value, name) == Some(FormDecode(value))
  {
    var q := name + "=" + value;
    assert ("?" + name + "=" + value)[1..] == q;
    assert '&' !in q by {
      forall i | 0 <= i < |q| ensures q[i] != '&' {
        if i < |name| { assert q[i] == name[i]; }
        else if i > |name| { assert q[i] == value[i - |name| - 1]; }
      }
    }
    SplitPiece(q, '&');
    assert q[|name|] == '=' && q[..|name|] == name;
    assert IndexOf(q, '=') == Some(|name|);
    assert q[|name| + 1..] == value;
    assert PlusToSpace(name) == name;
    PercentDecodePlain(name);
  }

  /** A `name=value` pair whose name needs no decoding is named `name` and
      holds `value` (still to be decoded). */
  lemma PairParts(name: string, value: string)
    requires name != "" && '=' !in name && '+' !in name && '%' !in name
    ensures Names(name + "=" + value, name) && ValueOf(name + "=" + value) == value
  {
    var q := name + "=" + value;
    assert forall j :: 0 <= j < |name| ==> q[j] == name[j];
    IndexOfIs(q, '=', |name|);
    assert q[..|name|] == name && q[|name| + 1..] == value;
    PercentDecodePlain(name);
  }

  /** The first pair wins: whatever follows the '&' that ends it, the value
      read for `name` is that pair's. */
  lemma FirstPairWins(name: string, value: string, tail: string)
    requires name != "" && '=' !in name && '&' !in name && '+' !in name && '%' !in name
    requires '&' !in value
    ensures SearchParamsGet("?" + name + "=" + (value + "&" + tail), name) == Some(FormDecode(value))
  {
    var pair := name + "=" + value;
    assert '&' !in pair by {
      forall i | 0 <= i < |pair| ensures pair[i] != '&' {
        if i < |name| { assert pair[i] == name[i]; }
        else if i > |name| { assert pair[i] == value[i - |name| - 1]; }
      }
    }
    assert ("?" + name + "=" + (value + "&" + tail))[1..] == pair + ['&'] + tail;
    SplitPrefix(pair, tail, '&');
    PairParts(name, value);
  }

  /** Text without '%' decodes to itself. */
  lemma {:induction false} PercentDecodePlain(s: string)
    requires '%' !in s
    ensures PercentDecode(s) == s
  {
    if s != [] {
      assert '%' !in s[1..] by {
        forall i | 0 <= i < |s[1..]| ensures s[1..][i] != '%' {
          assert s[1..][i] == s[i + 1];
        }
      }
      PercentDecodePlain(s[1..]);
      assert s == [s[0]] + s[1..];
    }
  }
}
