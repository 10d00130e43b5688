/** White space and searching in strings. */
module Texts {
  /** The white space of ASCII text. */
  predicate IsSpace(c: char) {
    c == ' ' || c == '\t' || c == '\n' || c == '\U{000B}' || c == '\U{000C}' || c == '\r'
  }

  predicate AllSpace(s: string) { forall i :: 0 <= i < |s| ==> IsSpace(s[i]) }

  predicate NoSpace(s: string) { forall i :: 0 <= i < |s| ==> !IsSpace(s[i]) }

  /** What documents are indented with is white space. */
  lemma IndentationIsSpace(pad: string)
    requires forall i :: 0 <= i < |pad| ==> pad[i] in {' ', '\t', '\n', '\r'}
    ensures AllSpace(pad)
  {}

  function TrimFront(s: string): (r: string)
    ensures |r| <= |s|
  {
    if s != "" && IsSpace(s[0]) then TrimFront(s[1..]) else s
  }

  function TrimBack(s: string): (r: string)
    ensures |r| <= |s|
  {
    if s != "" && IsSpace(s[|s| - 1]) then TrimBack(s[..|s| - 1]) else s
  }

  function Trim(s: string): string { TrimBack(TrimFront(s)) }

  /** Neither starts nor ends with white space. */
  predicate Trimmed(s: string) { s == "" || (!IsSpace(s[0]) && !IsSpace(s[|s| - 1])) }

  lemma {:induction false} TrimFrontPad(pad: string, s: string)
    requires AllSpace(pad)
    ensures TrimFront(pad + s) == TrimFront(s)
    decreases |pad|
  {
    if pad == "" {
      assert pad + s == s;
    } else {
      assert (pad + s)[1..] == pad[1..] + s;
      TrimFrontPad(pad[1..], s);
    }
  }

  lemma {:induction false} TrimBackPad(s: string, pad: string)
    requires AllSpace(pad)
    ensures TrimBack(s + pad) == TrimBack(s)
    decreases |pad|
  {
    if pad == "" {
      assert s + pad == s;
    } else {
      assert (s + pad)[..|s + pad| - 1] == s + pad[..|pad| - 1];
      TrimBackPad(s, pad[..|pad| - 1]);
    }
  }

  /** Trimming undoes padding. */
  lemma TrimPadded(pad: string, s: string)
    requires AllSpace(pad) && Trimmed(s)
    ensures Trim(pad + s + pad) == s
  {
    assert pad + s + pad == pad + (s + pad);
    TrimFrontPad(pad, s + pad);
    if s == "" {
      assert s + pad == pad + "";
      TrimFrontPad(pad, "");
    } else {
      TrimBackPad(s, pad);
    }
  }

  /** All fields joined: the string without its white space. */
  function Squeeze(s: string): string {
    if s == "" then "" else (if IsSpace(s[0]) then "" else [s[0]]) + Squeeze(s[1..])
  }

  lemma {:induction false} SqueezeConcat(a: string, b: string)
    ensures Squeeze(a + b) == Squeeze(a) + Squeeze(b)
    decreases |a|
  {
    if a == "" {
      assert a + b == b;
    } else {
      assert (a + b)[1..] == a[1..] + b;
      SqueezeConcat(a[1..], b);
    }
  }

  lemma {:induction false} SqueezeSpace(pad: string)
    requires AllSpace(pad)
    ensures Squeeze(pad) == ""
    decreases |pad|
  {
    if pad != "" { SqueezeSpace(pad[1..]); }
  }

  lemma {:induction false} SqueezeSolid(s: string)
    requires NoSpace(s)
    ensures Squeeze(s) == s
    decreases |s|
  {
    if s != "" { SqueezeSolid(s[1..]); }
  }

  lemma SqueezePadded(pad: string, s: string)
    requires AllSpace(pad) && NoSpace(s)
    ensures Squeeze(pad + s + pad) == s
  {
    SqueezeConcat(pad + s, pad);
    SqueezeConcat(pad, s);
    SqueezeSpace(pad);
    SqueezeSolid(s);
  }

  // ----- searching -----

  /** Position of the first occurrence of pat in s, or |s| + 1 when there is none. */
  function Find(s: string, pat: string): (i: nat)
    ensures i <= |s| + 1
    ensures i <= |s| ==> pat <= s[i..]
    decreases |s|
  {
    if pat <= s then 0
    else if s == "" then 1
    else 1 + Find(s[1..], pat)
  }

  /** No occurrence of pat starts inside t when t is followed by rest. */
  ghost predicate Skips(t: string, rest: string, pat: string) {
    forall k :: 0 <= k < |t| ==> !(pat <= t[k..] + rest)
  }

  lemma {:induction false} FindSkips(t: string, rest: string, pat: string)
    requires Skips(t, rest, pat)
    ensures Find(t + rest, pat) == |t| + Find(rest, pat)
    decreases |t|
  {
    if t == "" {
      assert t + rest == rest;
    } else {
      assert t[0..] + rest == t + rest;
      assert (t + rest)[1..] == t[1..] + rest;
      forall k | 0 <= k < |t| - 1
        ensures !(pat <= t[1..][k..] + rest)
      {
        assert t[1..][k..] == t[k + 1..];
      }
      FindSkips(t[1..], rest, pat);
    }
  }

  lemma SkipsConcat(a: string, b: string, rest: string, pat: string)
    requires Skips(a, b + rest, pat) && Skips(b, rest, pat)
    ensures Skips(a + b, rest, pat)
  {
    forall k | 0 <= k < |a + b|
      ensures !(pat <= (a + b)[k..] + rest)
    {
      if k < |a| {
        assert (a + b)[k..] + rest == a[k..] + (b + rest);
      } else {
        assert (a + b)[k..] == b[k - |a|..];
      }
    }
  }
}
