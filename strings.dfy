/** String helpers with Python's meaning: `str.isspace`, `strip`, `lstrip`,
    `startswith`, `str.join` and ASCII `lower`. */
module Strings {

  /** The characters `str.isspace()` accepts; `strip()` and `split()` without
      arguments use exactly these. */
  predicate IsSpace(c: char) {
    || c == '\t' || c == '\n' || c == '\U{000B}' || c == '\U{000C}' || c == '\r'
    || ('\U{001C}' <= c <= '\U{001F}') || c == ' ' || c == '\U{0085}' || c == '\U{00A0}'
    || c == '\U{1680}' || ('\U{2000}' <= c <= '\U{200A}') || c == '\U{2028}'
    || c == '\U{2029}' || c == '\U{202F}' || c == '\U{205F}' || c == '\U{3000}'
  }

  /** The first index at or after `from` that holds no whitespace. */
  function SkipSpace(s: string, from: nat): (r: nat)
    requires from <= |s|
    ensures from <= r <= |s| && (r < |s| ==> !IsSpace(s[r]))
    ensures forall m :: from <= m < r ==> IsSpace(s[m])
    decreases |s| - from
  {
    if from == |s| || !IsSpace(s[from]) then from else SkipSpace(s, from + 1)
  }

  /** The end of `s[..stop]` once its trailing whitespace is dropped. */
  function TrimEnd(s: string, stop: nat): (r: nat)
    requires stop <= |s|
    ensures r <= stop && (r > 0 ==> !IsSpace(s[r - 1]))
    ensures forall m :: r <= m < stop ==> IsSpace(s[m])
    decreases stop
  {
    if stop == 0 || !IsSpace(s[stop - 1]) then stop else TrimEnd(s, stop - 1)
  }

  /** `s.lstrip()` */
  function LStrip(s: string): (r: string)
    ensures |r| <= |s| && r == s[|s| - |r|..]
    ensures r == [] || !IsSpace(r[0])
    ensures forall i :: 0 <= i < |s| - |r| ==> IsSpace(s[i])
  {
    s[SkipSpace(s, 0)..]
  }

  /** `s.rstrip()` */
  function RStrip(s: string): (r: string)
    ensures |r| <= |s| && r == s[..|r|]
    ensures r == [] || !IsSpace(r[|r| - 1])
    ensures forall i :: |r| <= i < |s| ==> IsSpace(s[i])
  {
    s[..TrimEnd(s, |s|)]
  }

  /** `s.strip()` */
  function Strip(s: string): (r: string)
    ensures r == [] || (!IsSpace(r[0]) && !IsSpace(r[|r| - 1]))
    ensures exists i, j ::
              && 0 <= i <= j <= |s| && r == s[i..j]
              && (forall k :: 0 <= k < i ==> IsSpace(s[k]))
              && (forall k :: j <= k < |s| ==> IsSpace(s[k]))
  {
    var l := LStrip(s);
    var r := RStrip(l);
    var i := |s| - |l|;
    var j := i + |r|;
    assert r == s[i..j] by {
      assert l == s[i..];
      assert r == l[..|r|];
    }
    assert forall k :: 0 <= k < i ==> IsSpace(s[k]);
    assert forall k :: j <= k < |s| ==> IsSpace(s[k]) by {
      forall k | j <= k < |s|
        ensures IsSpace(s[k])
      {
        assert s[k] == l[k - i];
      }
    }
    r
  }

  predicate StartsWith(s: string, prefix: string) {
    |prefix| <= |s| && s[..|prefix|] == prefix
  }

  /** `sep.join(xs)` */
  function Join(sep: string, xs: seq<string>): (r: string)
    ensures xs == [] ==> r == ""
    ensures |xs| == 1 ==> r == xs[0]
  {
    if xs == [] then "" else if |xs| == 1 then xs[0] else xs[0] + sep + Join(sep, xs[1..])
  }

  /** A joined string is empty exactly when every piece is empty and the
      separator was never inserted, i.e. at most one empty piece. */
  lemma {:induction false} JoinEmpty(sep: string, xs: seq<string>)
    requires sep != ""
    ensures Join(sep, xs) == "" <==> (xs == [] || xs == [""])
  {
    if |xs| > 1 {
      assert |Join(sep, xs)| >= |sep|;
    }
  }

  predicate IsDigit(c: char) { '0' <= c <= '9' }

  /** ASCII `str.lower()` */
  function Lower(s: string): (r: string)
    ensures |r| == |s|
    ensures forall i :: 0 <= i < |s| ==> r[i] == if 'A' <= s[i] <= 'Z' then (s[i] as int + 32) as char else s[i]
  {
    seq(|s|, i requires 0 <= i < |s| => if 'A' <= s[i] <= 'Z' then (s[i] as int + 32) as char else s[i])
  }
}
