/** String primitives of the JavaScript runtime that the scraper relies on:
    the white-space class of `\s` and `trim()`, `split` on one character,
    `replaceAll` of one character, literal search, and ASCII `toUpperCase`. */
module Text {
  import opened Wrappers

  /** The characters JavaScript's `\s` matches and `trim()` removes
      (WhiteSpace and LineTerminator of ECMA-262). */
  predicate IsSpace(c: char) {
    ('\t' <= c <= '\r') || c == ' ' || c == '\U{A0}' || c == '\U{1680}'
    || ('\U{2000}' <= c <= '\U{200A}') || c == '\U{2028}' || c == '\U{2029}'
    || c == '\U{202F}' || c == '\U{205F}' || c == '\U{3000}' || c == '\U{FEFF}'
  }

  predicate StartsWith(s: string, prefix: string) {
    |prefix| <= |s| && s[..|prefix|] == prefix
  }

  /** `p` occurs in `s` at index `i`. */
  predicate Occurs(s: string, p: string, i: nat) {
    i + |p| <= |s| && s[i..i + |p|] == p
  }

  /** Leading white space removed, as `trimStart()` (and a regex `\s*` run). */
  function TrimStart(s: string): (r: string)
    ensures |r| <= |s| && r == s[|s| - |r|..]
    ensures forall i :: 0 <= i < |s| - |r| ==> IsSpace(s[i])
    ensures r != [] ==> !IsSpace(r[0])
  {
    if s != [] && IsSpace(s[0]) then TrimStart(s[1..]) else s
  }

  /** Trailing white space removed, as `trimEnd()`. */
  function TrimEnd(s: string): (r: string)
    ensures |r| <= |s| && r == s[..|r|]
    ensures forall i :: |r| <= i < |s| ==> IsSpace(s[i])
    ensures r != [] ==> !IsSpace(r[|r| - 1])
  {
    if s != [] && IsSpace(s[|s| - 1]) then TrimEnd(s[..|s| - 1]) else s
  }

  /** No white space at either end. */
  predicate Trimmed(s: string) {
    s == [] || (!IsSpace(s[0]) && !IsSpace(s[|s| - 1]))
  }

  /** `trim()`: white space removed from both ends; what is left has no
      white space at either end, and nothing is left of a blank text. */
  function Trim(s: string): (r: string)
    ensures |r| <= |s| && Trimmed(r)
    ensures (forall i :: 0 <= i < |s| ==> IsSpace(s[i])) ==> r == []
  {
    var u := TrimStart(s);
    var r := TrimEnd(u);
    assert r != [] ==> r[0] == u[0];
    assert r == [] || !IsSpace(r[0]);
    r
  }

  /** A text with no white space at either end is left as it is. */
  lemma TrimTrimmed(s: string)
    requires Trimmed(s)
    ensures Trim(s) == s
  {
    if s != [] {
      assert TrimStart(s) == s;
    }
  }

  /** Nothing but white space. */
  predicate Blank(w: string) {
    forall k :: 0 <= k < |w| ==> IsSpace(w[k])
  }

  /** `r` is the part of `s` starting at `a`, and everything of `s` before
      and after it is white space. */
  predicate KeptBetween(s: string, a: nat, r: string) {
    a + |r| <= |s| && r == s[a..a + |r|]
    && (forall k :: 0 <= k < a ==> IsSpace(s[k]))
    && (forall k :: a + |r| <= k < |s| ==> IsSpace(s[k]))
  }

  /** `trim()` keeps one contiguous part of the text and cuts nothing but
      white space before and after it; with `Trimmed`, this is the part
      from the first to the last character that is not white space. */
  lemma TrimMiddle(s: string)
    ensures exists a: nat :: KeptBetween(s, a, Trim(s))
  {
    var u := TrimStart(s);
    var r := TrimEnd(u);
    var a := |s| - |u|;
    assert r == u[..|r|] && u == s[a..];
    assert r == s[a..a + |r|];
    forall k | a + |r| <= k < |s|
      ensures IsSpace(s[k])
    {
      assert s[k] == u[k - a];
    }
    assert Trim(s) == r;
    assert KeptBetween(s, a, r);
  }

  /** `TrimStart` removes exactly a run of white space before a value that
      does not start with white space. */
  lemma {:induction false} TrimSpacesBefore(ws: string, v: string)
    requires Blank(ws)
    requires v == [] || !IsSpace(v[0])
    ensures TrimStart(ws + v) == v
  {
    if ws != [] {
      assert (ws + v)[1..] == ws[1..] + v;
      TrimSpacesBefore(ws[1..], v);
    }
  }

  /** `TrimEnd` removes exactly a run of white space after a value that
      does not end with white space. */
  lemma {:induction false} TrimSpacesAfter(v: string, ws: string)
    requires Blank(ws)
    requires v == [] || !IsSpace(v[|v| - 1])
    ensures TrimEnd(v + ws) == v
  {
    if ws != [] {
      var n := |ws| - 1;
      assert (v + ws)[..|v + ws| - 1] == v + ws[..n];
      TrimSpacesAfter(v, ws[..n]);
    } else {
      assert v + ws == v;
    }
  }

  /** White space around a trimmed text is exactly what `trim()` removes. */
  lemma TrimPadded(w0: string, x: string, w1: string)
    requires Blank(w0) && Blank(w1) && Trimmed(x)
    ensures Trim(w0 + x + w1) == x
  {
    var s := w0 + x + w1;
    if x == [] {
      forall k | 0 <= k < |s|
        ensures IsSpace(s[k])
      {
        if k < |w0| { assert s[k] == w0[k]; } else { assert s[k] == w1[k - |w0|]; }
      }
    } else {
      assert s == w0 + (x + w1);
      TrimSpacesBefore(w0, x + w1);
      TrimSpacesAfter(x, w1);
    }
  }

  /** `replace(/\s/g, "")`: every white-space character deleted. */
  function RemoveSpaces(s: string): (r: string)
    ensures |r| <= |s|
    ensures |s| == 1 ==> r == (if IsSpace(s[0]) then [] else s)
  {
    if s == [] then []
    else if IsSpace(s[0]) then RemoveSpaces(s[1..])
    else [s[0]] + RemoveSpaces(s[1..])
  }

  /** Removing white space works piece by piece: with the one-character
      case above, each character is dropped exactly when it is white space. */
  lemma {:induction false} RemoveSpacesAppend(a: string, b: string)
    ensures RemoveSpaces(a + b) == RemoveSpaces(a) + RemoveSpaces(b)
  {
    if a == [] {
      assert a + b == b;
    } else {
      assert (a + b)[0] == a[0] && (a + b)[1..] == a[1..] + b;
      RemoveSpacesAppend(a[1..], b);
      var h := if IsSpace(a[0]) then [] else [a[0]];
      assert RemoveSpaces(a + b) == h + RemoveSpaces(a[1..] + b);
      AppendAssoc(h, RemoveSpaces(a[1..]), RemoveSpaces(b));
    }
  }

  /** No white space is left, and a text without any is unchanged. */
  lemma {:induction false} RemoveSpacesSpec(s: string)
    ensures forall i :: 0 <= i < |RemoveSpaces(s)| ==> !IsSpace(RemoveSpaces(s)[i])
    ensures (forall i :: 0 <= i < |s| ==> !IsSpace(s[i])) ==> RemoveSpaces(s) == s
  {
    if s != [] {
      RemoveSpacesSpec(s[1..]);
      if forall i :: 0 <= i < |s| ==> !IsSpace(s[i]) {
        assert forall i :: 0 <= i < |s[1..]| ==> !IsSpace(s[1..][i]) by {
          forall i | 0 <= i < |s[1..]|
            ensures !IsSpace(s[1..][i])
          {
            assert s[1..][i] == s[i + 1];
          }
        }
      }
    }
  }

  /** `replaceAll(from, to)` for one-character strings. */
  function MapChar(s: string, from: char, to: char): (r: string)
    ensures |r| == |s|
    ensures forall i :: 0 <= i < |s| ==> r[i] == (if s[i] == from then to else s[i])
  {
    if s == [] then [] else [if s[0] == from then to else s[0]] + MapChar(s[1..], from, to)
  }

  /** `replace(/c/g, '')`: every occurrence of `c` deleted. */
  function DeleteChar(s: string, c: char): (r: string)
    ensures c !in r && |r| <= |s|
    ensures c !in s ==> r == s
    ensures |s| == 1 ==> r == (if s[0] == c then [] else s)
  {
    if s == [] then [] else (if s[0] == c then [] else [s[0]]) + DeleteChar(s[1..], c)
  }

  /** Deleting `c` works piece by piece: with the one-character case above,
      each character is dropped exactly when it is `c`. */
  lemma {:induction false} DeleteCharAppend(a: string, b: string, c: char)
    ensures DeleteChar(a + b, c) == DeleteChar(a, c) + DeleteChar(b, c)
  {
    if a == [] {
      assert a + b == b;
    } else {
      assert (a + b)[0] == a[0] && (a + b)[1..] == a[1..] + b;
      DeleteCharAppend(a[1..], b, c);
      var h := if a[0] == c then [] else [a[0]];
      assert DeleteChar(a + b, c) == h + DeleteChar(a[1..] + b, c);
      AppendAssoc(h, DeleteChar(a[1..], c), DeleteChar(b, c));
    }
  }

  /** One separator between two separator-free parts is deleted alone. */
  lemma DeleteSeparator(a: string, c: char, b: string)
    requires c !in a && c !in b
    ensures DeleteChar(a + [c] + b, c) == a + b
  {
    var cb := [c] + b;
    assert cb[0] == c && cb[1..] == b;
    assert a + [c] + b == a + cb;
    DeleteCharAppend(a, cb, c);
  }

  function CountChar(s: string, c: char): nat {
    if s == [] then 0 else (if s[0] == c then 1 else 0) + CountChar(s[1..], c)
  }

  /** `s.split(sep)` for a one-character separator: the maximal
      separator-free pieces, always at least one (`"".split(c)` is `[""]`). */
  function Split(s: string, sep: char): (parts: seq<string>)
    ensures |parts| == CountChar(s, sep) + 1
    ensures forall k :: 0 <= k < |parts| ==> sep !in parts[k]
  {
    if s == [] then [""]
    else
      var rest := Split(s[1..], sep);
      if s[0] == sep then [""] + rest else [[s[0]] + rest[0]] + rest[1..]
  }

  /** `parts.join(sep)`, the inverse of `Split`. */
  function Join(parts: seq<string>, sep: char): string
    requires |parts| >= 1
  {
    if |parts| == 1 then parts[0] else parts[0] + [sep] + Join(parts[1..], sep)
  }

  lemma AppendAssoc<T>(a: seq<T>, b: seq<T>, c: seq<T>)
    ensures a + (b + c) == (a + b) + c
  {
  }

  lemma AppendEmpty<T>(a: seq<T>)
    ensures a + [] == a
  {
  }

  lemma JoinCons(x: string, rest: seq<string>, sep: char)
    requires rest != []
    ensures Join([x] + rest, sep) == x + [sep] + Join(rest, sep)
  {
    assert ([x] + rest)[1..] == rest;
  }

  lemma {:induction false} JoinSplit(s: string, sep: char)
    ensures Join(Split(s, sep), sep) == s
  {
    if s != [] {
      JoinSplit(s[1..], sep);
      var rest := Split(s[1..], sep);
      if s[0] != sep {
        if |rest| == 1 {
          assert Split(s, sep) == [[s[0]] + rest[0]];
        } else {
          assert Split(s, sep)[1..] == rest[1..];
        }
      } else {
        assert Split(s, sep)[1..] == rest;
      }
    }
  }

  lemma {:induction false} SplitJoin(parts: seq<string>, sep: char)
    requires |parts| >= 1
    requires forall k :: 0 <= k < |parts| ==> sep !in parts[k]
    ensures Split(Join(parts, sep), sep) == parts
  {
    if |parts| == 1 {
      SplitPlain(parts[0], sep);
    } else {
      SplitJoin(parts[1..], sep);
      SplitAt(parts[0], sep, Join(parts[1..], sep));
      assert [parts[0]] + parts[1..] == parts;
    }
  }

  /** A separator-free string splits into itself. */
  lemma {:induction false} SplitPlain(s: string, sep: char)
    requires sep !in s
    ensures Split(s, sep) == [s]
  {
    if s != [] {
      SplitPlain(s[1..], sep);
      assert [s[0]] + s[1..] == s;
    }
  }

  /** Splitting `a + sep + b` with `a` separator-free. */
  lemma {:induction false} SplitAt(a: string, sep: char, b: string)
    requires sep !in a
    ensures Split(a + [sep] + b, sep) == [a] + Split(b, sep)
  {
    if a == [] {
      assert (a + [sep] + b)[1..] == b;
    } else {
      assert (a + [sep] + b)[1..] == a[1..] + [sep] + b;
      SplitAt(a[1..], sep, b);
      assert [a[0]] + a[1..] == a;
    }
  }

  /** ASCII `toUpperCase()`. */
  function UpperChar(c: char): char {
    if 'a' <= c <= 'z' then (c as int - 'a' as int + 'A' as int) as char else c
  }

  function ToUpper(s: string): (r: string)
    ensures |r| == |s|
    ensures forall i :: 0 <= i < |s| ==> r[i] == UpperChar(s[i])
    ensures forall i :: 0 <= i < |r| ==> !('a' <= r[i] <= 'z')
  {
    if s == [] then [] else [UpperChar(s[0])] + ToUpper(s[1..])
  }

  /** Index of the first occurrence of `p` in `s` at or after `from`. */
  function FirstOcc(s: string, p: string, from: nat): (r: Option<nat>)
    decreases |s| - from
    ensures r.Some? ==> from <= r.value && Occurs(s, p, r.value)
    ensures r.Some? ==> forall k :: from <= k < r.value ==> !Occurs(s, p, k)
    ensures r.None? ==> forall k :: from <= k ==> !Occurs(s, p, k)
  {
    if from + |p| > |s| then None
    else if Occurs(s, p, from) then Some(from)
    else FirstOcc(s, p, from + 1)
  }

  /** Index of the last occurrence of `p` in `s` within `[lo, hi]`. */
  function LastOcc(s: string, p: string, lo: nat, hi: int): (r: Option<nat>)
    decreases hi - lo + 1
    ensures r.Some? ==> lo <= r.value <= hi && Occurs(s, p, r.value)
    ensures r.Some? ==> forall k :: r.value < k <= hi ==> !Occurs(s, p, k)
    ensures r.None? ==> forall k :: lo <= k <= hi ==> !Occurs(s, p, k)
  {
    if hi < lo then None
    else if Occurs(s, p, hi) then Some(hi)
    else LastOcc(s, p, lo, hi - 1)
  }
}
