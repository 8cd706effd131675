/** The few pieces of PHP's runtime semantics the plugin relies on: an unset-or-null
    marker for isset(), empty() on strings, implode() and trim(). */
module Php {

  /** None stands for a property or key that isset() reports as not set (absent or null). */
  datatype Option<+T> = None | Some(value: T)

  /** empty() on a string: true exactly for "" and "0". */
  predicate EmptyString(s: string)
  {
    s == "" || s == "0"
  }

  /** implode(sep, xs): the elements of xs in order, with sep between neighbours. */
  function Implode(sep: string, xs: seq<string>): string
  {
    if |xs| == 0 then ""
    else if |xs| == 1 then xs[0]
    else xs[0] + sep + Implode(sep, xs[1..])
  }

  /** The characters trim() strips when called without a character list:
      space, tab, line feed, carriage return, NUL and vertical tab. */
  predicate IsTrimChar(c: char)
  {
    c == ' ' || c == '\t' || c == '\n' || c == '\r' || c == '\0' || c == '\U{B}'
  }

  predicate AllTrimChars(s: string)
  {
    forall i :: 0 <= i < |s| ==> IsTrimChar(s[i])
  }

  /** Neither end of s holds a character trim() would strip. */
  predicate Trimmed(s: string)
  {
    s == [] || (!IsTrimChar(s[0]) && !IsTrimChar(s[|s| - 1]))
  }

  /** ltrim(s): the suffix of s left after its leading trim characters. */
  function TrimLeft(s: string): (r: string)
    ensures |r| <= |s| && r == s[|s| - |r|..]
    ensures r == [] || !IsTrimChar(r[0])
  {
    if s != [] && IsTrimChar(s[0]) then TrimLeft(s[1..]) else s
  }

  /** rtrim(s): the prefix of s left before its trailing trim characters. */
  function TrimRight(s: string): (r: string)
    ensures |r| <= |s| && r == s[..|r|]
    ensures r == [] || !IsTrimChar(r[|r| - 1])
  {
    if s != [] && IsTrimChar(s[|s| - 1]) then TrimRight(s[..|s| - 1]) else s
  }

  /** trim(s): both ends stripped. */
  function Trim(s: string): (r: string)
    ensures |r| <= |s|
    ensures Trimmed(r)
  {
    TrimRight(TrimLeft(s))
  }

  /** trim() removes only characters from the two ends: every other character of s survives
      in place, shifted left by the number of characters stripped from the front. */
  lemma TrimKeeps(s: string, i: int)
    requires 0 <= i < |s| && !IsTrimChar(s[i])
    ensures 0 <= i - (|s| - |TrimLeft(s)|) < |Trim(s)|
    ensures Trim(s)[i - (|s| - |TrimLeft(s)|)] == s[i]
    ensures s[i] in Trim(s)
  {
    var t := TrimLeft(s);
    var j := i - (|s| - |t|);
    TrimLeftKeeps(s, i);
    TrimRightKeeps(t, j);
    assert Trim(s)[j] == s[i];
  }

  /** ltrim() stops at or before the first character it does not strip, and keeps it. */
  lemma {:induction false} TrimLeftKeeps(s: string, i: int)
    requires 0 <= i < |s| && !IsTrimChar(s[i])
    ensures |s| - |TrimLeft(s)| <= i
    ensures TrimLeft(s)[i - (|s| - |TrimLeft(s)|)] == s[i]
  {
    if IsTrimChar(s[0]) {
      assert s[1..][i - 1] == s[i];
      TrimLeftKeeps(s[1..], i - 1);
    }
  }

  /** rtrim() stops at or after the last character it does not strip, and keeps it. */
  lemma {:induction false} TrimRightKeeps(s: string, i: int)
    requires 0 <= i < |s| && !IsTrimChar(s[i])
    ensures i < |TrimRight(s)| && TrimRight(s)[i] == s[i]
  {
    var n := |s| - 1;
    if IsTrimChar(s[n]) {
      assert s[..n][i] == s[i];
      TrimRightKeeps(s[..n], i);
    }
  }

  lemma {:induction false} TrimLeftSkips(lead: string, t: string)
    requires AllTrimChars(lead)
    requires t == [] || !IsTrimChar(t[0])
    ensures TrimLeft(lead + t) == t
  {
    if lead != [] {
      assert (lead + t)[1..] == lead[1..] + t;
      TrimLeftSkips(lead[1..], t);
    } else {
      assert lead + t == t;
    }
  }

  lemma {:induction false} TrimRightSkips(m: string, trail: string)
    requires AllTrimChars(trail)
    requires m == [] || !IsTrimChar(m[|m| - 1])
    ensures TrimRight(m + trail) == m
  {
    if trail != [] {
      var n := |trail| - 1;
      assert (m + trail)[..|m + trail| - 1] == m + trail[..n];
      TrimRightSkips(m, trail[..n]);
    } else {
      assert m + trail == m;
    }
  }

  /** trim() is determined by its meaning: a string with no trim character at
      either end, framed by runs of trim characters, trims to itself. */
  lemma TrimUnique(lead: string, m: string, trail: string)
    requires AllTrimChars(lead) && AllTrimChars(trail) && Trimmed(m)
    ensures Trim(lead + m + trail) == m
  {
    if m == [] {
      assert lead + m + trail == lead + trail;
      assert AllTrimChars(lead + trail) by {
        forall i | 0 <= i < |lead + trail| ensures IsTrimChar((lead + trail)[i]) {
          if i >= |lead| {
            assert (lead + trail)[i] == trail[i - |lead|];
          }
        }
      }
      TrimLeftSkips(lead + trail, []);
      assert lead + trail + [] == lead + trail;
    } else {
      assert lead + m + trail == lead + (m + trail);
      TrimLeftSkips(lead, m + trail);
      TrimRightSkips(m, trail);
    }
  }

  /** trim() is idempotent. */
  lemma TrimIdempotent(s: string)
    ensures Trim(Trim(s)) == Trim(s)
  {
    var r := Trim(s);
    assert TrimLeft(r) == r;
    assert TrimRight(r) == r;
  }
}
