/** Cutting the entitlements dict out of a provisioning profile by counting tags. */
module Entitlements {
  import opened Basics
  import opened Texts
  import opened Plist

  const OPEN: string := "<dict>"
  const CLOSE: string := "</dict>"
  const KEY: string := "Entitlements"
  const KEY_TAG: string := "<key>" + KEY + "</key>"
  const HEAD: string := "<?xml version=\"1.0\" encoding=\"UTF-8\"?><!DOCTYPE plist PUBLIC \"-//Apple//DTD PLIST 1.0//EN\" \"http://www.apple.com/DTDs/PropertyList-1.0.dtd\"><plist version=\"1.0\">"
  const FOOT: string := "</plist>"

  // ----- the scan -----

  /** Length of the text up to the close tag that brings the depth to zero. */
  function CloseAt(s: string, depth: int): (n: Option<nat>)
    ensures n.Some? ==> n.value <= |s|
    decreases |s|
  {
    if s == "" then None
    else if OPEN <= s then Shift(6, CloseAt(s[6..], depth + 1))
    else if CLOSE <= s then (if depth - 1 == 0 then Some(7) else Shift(7, CloseAt(s[7..], depth - 1)))
    else Shift(1, CloseAt(s[1..], depth))
  }

  function Shift(k: nat, n: Option<nat>): Option<nat> { if n.Some? then Some(k + n.value) else None }

  /** None: the text cannot be used. Without the key, an empty entitlements plist. */
  function Extract(s: string): Option<string> {
    var i := Find(s, KEY_TAG);
    if i > |s| then Some(HEAD + "<dict/>" + FOOT)
    else CutDict(s[i..])
  }

  /** The first dict of the text, as a plist of its own. */
  function CutDict(rest: string): Option<string> {
    var open := Find(rest, OPEN);
    if open > |rest| then None
    else
      match CloseAt(rest[open..], 0)
      case None => None
      case Some(n) => Some(HEAD + rest[open..open + n] + FOOT)
  }

  method ExtractEntitlements(s: string) returns (out: Option<string>)
    ensures out == Extract(s)
  {
    hide CloseAt, Find;
    var i := Find(s, KEY_TAG);
    if i > |s| {
      return Some(HEAD + "<dict/>" + FOOT);
    }
    var rest := s[i..];
    var open := Find(rest, OPEN);
    if open > |rest| {
      return None;
    }
    var end := DictEnd(rest, open);
    if end < 0 {
      return None;
    }
    assert rest[open..end] == rest[open..open + (end - open)];
    return Some(HEAD + rest[open..end] + FOOT);
  }

  /** The depth-counting loop: the end of the dict opening at open, or -1. */
  method DictEnd(rest: string, open: nat) returns (end: int)
    requires open <= |rest|
    ensures match CloseAt(rest[open..], 0)
            case None => end == -1
            case Some(n) => end == open + n
  {
    hide CloseAt;
    end := -1;
    var depth, j := 0, open;
    while j < |rest|
      invariant open <= j <= |rest| && end == -1
      invariant CloseAt(rest[open..], 0) == Shift(j - open, CloseAt(rest[j..], depth))
    {
      CloseStep(rest, j, depth);
      if OPEN <= rest[j..] {
        depth := depth + 1;
        j := j + 6;
      } else if CLOSE <= rest[j..] {
        depth := depth - 1;
        j := j + 7;
        if depth == 0 {
          return j;
        }
      } else {
        j := j + 1;
      }
    }
    assert rest[|rest|..] == "";
    CloseNothing(depth);
  }

  lemma CloseNothing(depth: int)
    ensures CloseAt("", depth) == None
  {}

  lemma CloseStep(s: string, j: nat, depth: int)
    requires j < |s|
    ensures CloseAt(s[j..], depth) ==
      if OPEN <= s[j..] then Shift(6, CloseAt(s[j + 6..], depth + 1))
      else if CLOSE <= s[j..] then (if depth - 1 == 0 then Some(7) else Shift(7, CloseAt(s[j + 7..], depth - 1)))
      else Shift(1, CloseAt(s[j + 1..], depth))
  {
    var t := s[j..];
    assert OPEN <= t ==> t[6..] == s[j + 6..];
    assert CLOSE <= t ==> t[7..] == s[j + 7..];
    assert t[1..] == s[j + 1..];
  }

  // ----- rendering -----

  function EscapeChar(c: char): string {
    if c == '<' then "&lt;" else if c == '>' then "&gt;" else if c == '&' then "&amp;" else [c]
  }

  function Escape(s: string): string {
    if s == "" then "" else EscapeChar(s[0]) + Escape(s[1..])
  }

  function RenderPiece(p: Piece): string {
    match p
    case Open(n) => "<" + n + ">"
    case Close(n) => "</" + n + ">"
    case Empty(n) => "<" + n + "/>"
    case Chars(s) => Escape(s)
  }

  function Render(ps: seq<Piece>): string {
    if ps == [] then "" else RenderPiece(ps[0]) + Render(ps[1..])
  }

  lemma {:induction false} RenderConcat(a: seq<Piece>, b: seq<Piece>)
    ensures Render(a + b) == Render(a) + Render(b)
    decreases |a|
  {
    if a == [] {
      assert a + b == b;
    } else {
      assert (a + b)[1..] == a[1..] + b;
      RenderConcat(a[1..], b);
    }
  }

  lemma RenderOne(p: Piece)
    ensures Render([p]) == RenderPiece(p)
  {
    assert [p][1..] == [];
    assert RenderPiece(p) + "" == RenderPiece(p);
  }

  lemma {:induction false} EscapeHasNoTag(s: string)
    ensures '<' !in Escape(s)
    decreases |s|
  {
    if s != "" { EscapeHasNoTag(s[1..]); }
  }

  predicate NeedsNoEscape(s: string) { '<' !in s && '>' !in s && '&' !in s }

  lemma {:induction false} EscapePlain(s: string)
    requires NeedsNoEscape(s)
    ensures Escape(s) == s
    decreases |s|
  {
    if s != "" { EscapePlain(s[1..]); }
  }

  /** Text without an ampersand comes from itself only. */
  lemma {:induction false} EscapeFixed(s: string)
    requires '&' !in Escape(s)
    ensures Escape(s) == s
    decreases |s|
  {
    if s != "" {
      assert EscapeChar(s[0])[0] in Escape(s);
      assert forall c :: c in Escape(s[1..]) ==> c in Escape(s);
      EscapeFixed(s[1..]);
    }
  }

  // ----- text in which a pattern cannot start -----

  /** Whatever follows t, no occurrence of pat starts inside t. */
  ghost predicate Quiet(t: string, pat: string) {
    forall rest: string :: Skips(t, rest, pat)
  }

  lemma QuietConcat(a: string, b: string, pat: string)
    requires Quiet(a, pat) && Quiet(b, pat)
    ensures Quiet(a + b, pat)
  {
    forall rest: string
      ensures Skips(a + b, rest, pat)
    {
      SkipsConcat(a, b, rest, pat);
    }
  }

  predicate IsPattern(pat: string) { pat == OPEN || pat == CLOSE || pat == KEY_TAG }

  /** A tag, or text without one, is quiet as soon as the pattern does not start at its front. */
  lemma QuietFromFront(t: string, pat: string)
    requires IsPattern(pat) && forall k :: 1 <= k < |t| ==> t[k] != '<'
    requires t == "" || forall rest: string :: !(pat <= t + rest)
    ensures Quiet(t, pat)
  {
    forall rest: string, k | 0 <= k < |t|
      ensures !(pat <= t[k..] + rest)
    {
      if k == 0 {
        assert t[0..] == t;
      } else {
        assert (t[k..] + rest)[0] == t[k];
        assert pat[0] == '<';
      }
    }
  }

  lemma CharsQuiet(s: string, pat: string)
    requires IsPattern(pat)
    ensures Quiet(Escape(s), pat)
  {
    EscapeHasNoTag(s);
    var t := Escape(s);
    forall rest: string | t != ""
      ensures !(pat <= t + rest)
    {
      assert (t + rest)[0] == t[0] && t[0] in t;
    }
    QuietFromFront(t, pat);
  }

  /** The name in the first tag of a pattern. */
  function FirstTag(pat: string): string
    requires IsPattern(pat)
  {
    if pat == OPEN then "dict" else if pat == CLOSE then "/dict" else "key"
  }

  lemma FirstTagIs(pat: string)
    requires IsPattern(pat)
    ensures |pat| > |FirstTag(pat)| + 1 && pat[|FirstTag(pat)| + 1] == '>' && '>' !in FirstTag(pat)
    ensures pat[1..] == FirstTag(pat) + pat[|FirstTag(pat)| + 1..]
  {
    if pat == OPEN {
      assert pat[1..] == "dict" + pat[5..];
    } else if pat == CLOSE {
      assert pat[1..] == "/dict" + pat[6..];
    } else {
      assert pat[1..] == "key" + pat[4..];
    }
  }

  /** A tag is quiet unless it is the pattern's first tag. */
  lemma TagQuiet(x: string, pat: string)
    requires IsPattern(pat) && '<' !in x && '>' !in x && x != FirstTag(pat)
    ensures Quiet("<" + x + ">", pat)
  {
    var t, m := "<" + x + ">", FirstTag(pat);
    FirstTagIs(pat);
    forall rest: string
      ensures !(pat <= t + rest)
    {
      if pat <= t + rest {
        assert (t + rest)[1..] == x + (">" + rest);
        SamePrefix(x, m, ">" + rest, pat[|m| + 1..], '>', t + rest, pat, 1);
        assert false;
      }
    }
    QuietFromFront(t, pat);
  }

  /** Two strings up to their first stop character agree when one text starts with the other. */
  lemma SamePrefix(x: string, m: string, xs: string, ms: string, stop: char, t: string, pat: string, n: nat)
    requires stop !in x && stop !in m && xs != "" && ms != "" && xs[0] == stop && ms[0] == stop
    requires n <= |pat| && pat <= t && t[n..] == x + xs && pat[n..] == m + ms
    ensures x == m
  {
    assert forall k :: 0 <= k < |m + ms| ==> (m + ms)[k] == pat[k + n] == t[k + n] == (x + xs)[k];
    assert (m + ms)[|m|] == stop && (x + xs)[|x|] == stop;
    assert forall k :: 0 <= k < |m| ==> m[k] == (m + ms)[k] && m[k] != stop;
    assert forall k :: 0 <= k < |x| ==> x[k] == (x + xs)[k] && x[k] != stop;
    assert |x| == |m|;
  }

  /** A key element is quiet unless it is the key looked for. */
  lemma KeyQuiet(k: string)
    requires k != KEY
    ensures Quiet("<key>" + Escape(k) + "</key>", KEY_TAG)
  {
    hide Escape;
    var t := "<key>" + Escape(k) + "</key>";
    forall rest: string, i | 0 <= i < |t|
      ensures !(KEY_TAG <= t[i..] + rest)
    {
      if i == 0 {
        KeyNotAtFront(k, rest);
        assert t[0..] == t;
      } else {
        EscapeHasNoTag(k);
        KeyNotInside(Escape(k), rest, i);
      }
    }
  }

  lemma KeyNotInside(x: string, rest: string, i: nat)
    requires '<' !in x && 0 < i < |x| + 11
    ensures !(KEY_TAG <= ("<key>" + x + "</key>")[i..] + rest)
  {
    var t := "<key>" + x + "</key>";
    var u := t[i..] + rest;
    assert u[0] == t[i];
    assert i < 5 ==> t[i] != '<';
    assert 5 <= i < |x| + 5 ==> t[i] == x[i - 5];
    assert i == |x| + 5 ==> u[1] == t[i + 1] == '/';
    assert i > |x| + 5 ==> t[i] == "</key>"[i - |x| - 5] && t[i] != '<';
    assert KEY_TAG[0] == '<' && KEY_TAG[1] == 'k';
  }

  lemma KeyNotAtFront(k: string, rest: string)
    requires k != KEY
    ensures !(KEY_TAG <= "<key>" + Escape(k) + "</key>" + rest)
  {
    hide Escape;
    EscapeHasNoTag(k);
    var x := Escape(k);
    if KEY_TAG <= "<key>" + x + "</key>" + rest {
      KeyAtFront(x, rest);
      assert '&' !in x;
      EscapeFixed(k);
      assert false;
    }
  }

  lemma KeyAtFront(x: string, rest: string)
    requires '<' !in x && KEY_TAG <= "<key>" + x + "</key>" + rest
    ensures x == KEY
  {
    var after := "</key>" + rest;
    var t := "<key>" + x + "</key>" + rest;
    assert t[5..] == x + after;
    assert KEY_TAG[5..] == KEY + "</key>";
    assert after[0] == '<' && "</key>"[0] == '<';
    assert '<' !in KEY;
    SamePrefix(x, KEY, after, "</key>", '<', t, KEY_TAG, 5);
  }

  // ----- text with balanced dict tags -----

  /** Inside a dict, the scan passes over t and is at the same depth behind it. */
  ghost predicate Balanced(t: string) {
    forall rest: string, depth: int :: depth >= 1 ==> CloseAt(t + rest, depth) == Shift(|t|, CloseAt(rest, depth))
  }

  lemma BalancedConcat(a: string, b: string)
    requires Balanced(a) && Balanced(b)
    ensures Balanced(a + b)
  {
    hide CloseAt;
    forall rest: string, depth: int | depth >= 1
      ensures CloseAt(a + b + rest, depth) == Shift(|a + b|, CloseAt(rest, depth))
    {
      assert a + b + rest == a + (b + rest);
    }
  }

  lemma BalancedQuiet(t: string)
    requires Quiet(t, OPEN) && Quiet(t, CLOSE)
    ensures Balanced(t)
  {
    hide CloseAt;
    forall rest: string, depth: int | depth >= 1
      ensures CloseAt(t + rest, depth) == Shift(|t|, CloseAt(rest, depth))
    {
      assert Skips(t, rest, OPEN) && Skips(t, rest, CLOSE);
      CloseSkips(t, rest, depth);
    }
  }

  lemma {:induction false} CloseSkips(t: string, rest: string, depth: int)
    requires Skips(t, rest, OPEN) && Skips(t, rest, CLOSE)
    ensures CloseAt(t + rest, depth) == Shift(|t|, CloseAt(rest, depth))
    decreases |t|
  {
    if t == "" {
      assert t + rest == rest;
    } else {
      assert t[0..] + rest == t + rest;
      assert (t + rest)[1..] == t[1..] + rest;
      forall k | 0 <= k < |t| - 1
        ensures !(OPEN <= t[1..][k..] + rest) && !(CLOSE <= t[1..][k..] + rest)
      {
        assert t[1..][k..] == t[k + 1..];
      }
      CloseSkips(t[1..], rest, depth);
    }
  }

  /** Around balanced text a dict element is balanced, and ends where the count says. */
  lemma BalancedDict(t: string)
    requires Balanced(t)
    ensures Balanced(OPEN + t + CLOSE)
    ensures forall rest: string :: CloseAt(OPEN + t + CLOSE + rest, 0) == Some(|OPEN + t + CLOSE|)
  {
    hide CloseAt;
    forall rest: string, depth: nat
      ensures CloseAt(OPEN + t + CLOSE + rest, depth) ==
        if depth == 0 then Some(|OPEN + t + CLOSE|) else Shift(|OPEN + t + CLOSE|, CloseAt(rest, depth))
    {
      DictStep(t, rest, depth);
    }
  }

  lemma BalancedAt(t: string, rest: string, depth: nat)
    requires Balanced(t) && depth >= 1
    ensures CloseAt(t + rest, depth) == Shift(|t|, CloseAt(rest, depth))
  {}

  lemma DictStep(t: string, rest: string, depth: nat)
    requires Balanced(t)
    ensures CloseAt(OPEN + t + CLOSE + rest, depth) ==
      if depth == 0 then Some(|OPEN + t + CLOSE|) else Shift(|OPEN + t + CLOSE|, CloseAt(rest, depth))
  {
    hide CloseAt, Balanced, OPEN, CLOSE;
    BalancedAt(t, CLOSE + rest, depth + 1);
    OpenStep(t + (CLOSE + rest), depth);
    CloseTagStep(rest, depth + 1);
    assert OPEN + t + CLOSE + rest == OPEN + (t + (CLOSE + rest));
  }

  lemma OpenStep(rest: string, depth: int)
    ensures CloseAt(OPEN + rest, depth) == Shift(|OPEN|, CloseAt(rest, depth + 1))
  {
    assert OPEN <= OPEN + rest;
    assert (OPEN + rest)[6..] == rest;
  }

  lemma CloseTagStep(rest: string, depth: int)
    ensures CloseAt(CLOSE + rest, depth) == if depth == 1 then Some(|CLOSE|) else Shift(|CLOSE|, CloseAt(rest, depth - 1))
  {
    assert CLOSE <= CLOSE + rest && (CLOSE + rest)[1] == '/';
    assert !(OPEN <= CLOSE + rest);
    assert (CLOSE + rest)[7..] == rest;
  }

  // ----- printed values are balanced -----

  lemma RenderWrapped(name: string, inner: seq<Piece>)
    ensures Render([Open(name)] + inner + [Close(name)]) == "<" + name + ">" + Render(inner) + "</" + name + ">"
  {
    hide Render;
    RenderConcat([Open(name)] + inner, [Close(name)]);
    RenderConcat([Open(name)], inner);
    RenderOne(Open(name));
    RenderOne(Close(name));
  }

  lemma RenderLeaf(name: string, s: string)
    ensures Render([Open(name), Chars(s), Close(name)]) == "<" + name + ">" + Escape(s) + "</" + name + ">"
  {
    assert [Open(name), Chars(s), Close(name)] == [Open(name)] + [Chars(s)] + [Close(name)];
    RenderWrapped(name, [Chars(s)]);
    RenderOne(Chars(s));
  }

  predicate LeafName(n: string) {
    ScalarTag(n) || n == "data" || n == "array" || n == "true" || n == "false"
  }

  lemma NamesDiffer(n: string, pat: string)
    requires IsPattern(pat) && (LeafName(n) || (n == "key" && pat != KEY_TAG) || (n == "dict" && pat == KEY_TAG))
    ensures '<' !in n && '>' !in n
    ensures n != FirstTag(pat) && "/" + n != FirstTag(pat) && n + "/" != FirstTag(pat)
  {
    var m := FirstTag(pat);
    assert m == "dict" || m == "/dict" || m == "key";
    assert (n + "/")[|n|] == '/' && m[|m| - 1] != '/';
    assert ("/" + n)[0] == '/' && ("/" + n)[1..] == n;
    assert "/dict"[1..] == "dict";
  }

  lemma NamedQuiet(n: string, pat: string)
    requires IsPattern(pat) && (LeafName(n) || (n == "key" && pat != KEY_TAG) || (n == "dict" && pat == KEY_TAG))
    ensures Quiet("<" + n + ">", pat) && Quiet("</" + n + ">", pat)
    ensures Quiet("<" + n + "/>", pat)
  {
    hide Quiet, IsPattern;
    NamesDiffer(n, pat);
    TagQuiet(n, pat);
    assert "</" + n + ">" == "<" + ("/" + n) + ">";
    TagQuiet("/" + n, pat);
    assert "<" + n + "/>" == "<" + (n + "/") + ">";
    TagQuiet(n + "/", pat);
  }

  lemma LeafQuiet(name: string, s: string, pat: string)
    requires IsPattern(pat) && (LeafName(name) || (name == "key" && pat != KEY_TAG))
    ensures Quiet(Render([Open(name), Chars(s), Close(name)]), pat)
  {
    hide Quiet, Render, Escape;
    RenderLeaf(name, s);
    NamedQuiet(name, pat);
    CharsQuiet(s, pat);
    QuietConcat("<" + name + ">", Escape(s), pat);
    QuietConcat("<" + name + ">" + Escape(s), "</" + name + ">", pat);
    assert "<" + name + ">" + Escape(s) + "</" + name + ">" == "<" + name + ">" + Escape(s) + ("</" + name + ">");
  }

  lemma LeavesQuiet(v: Printed, pad: string, pat: string)
    requires WellPrinted(v) && IsPattern(pat) && !v.Map? && !v.Seq?
    ensures Quiet(Render(Print(v, pad)), pat)
  {
    match v
    case Scalar(tag, s) =>
      LeafQuiet(tag, pad + s + pad, pat);
    case Blob(d) =>
      LeafQuiet("data", pad + Base64.Encode(d) + pad, pat);
    case Bool(b) =>
      var n := if b then "true" else "false";
      NamedQuiet(n, pat);
      RenderOne(Empty(n));
  }

  lemma PadQuiet(pad: string, pat: string)
    requires IsPattern(pat)
    ensures Quiet(Render([Chars(pad)]), pat)
  {
    RenderOne(Chars(pad));
    CharsQuiet(pad, pat);
  }

  /** A key between its padding. */
  lemma RenderKey(k: string, pad: string)
    ensures Render(PrintKey(k, pad)) == Render([Chars(pad)]) + ("<key>" + Escape(k) + "</key>") + Render([Chars(pad)])
  {
    hide Render;
    assert PrintKey(k, pad) == [Chars(pad)] + [Open("key"), Chars(k), Close("key")] + [Chars(pad)];
    RenderConcat([Chars(pad)] + [Open("key"), Chars(k), Close("key")], [Chars(pad)]);
    RenderConcat([Chars(pad)], [Open("key"), Chars(k), Close("key")]);
    RenderLeaf("key", k);
  }

  lemma KeyPartQuiet(k: string, pad: string, pat: string)
    requires IsPattern(pat) && (pat == KEY_TAG ==> k != KEY)
    ensures Quiet(Render(PrintKey(k, pad)), pat)
  {
    hide Render, Quiet, PrintKey, Escape;
    var key := "<key>" + Escape(k) + "</key>";
    if pat == KEY_TAG {
      KeyQuiet(k);
    } else {
      RenderLeaf("key", k);
      LeafQuiet("key", k, pat);
      assert key == "<" + "key" + ">" + Escape(k) + "</" + "key" + ">";
    }
    RenderKey(k, pad);
    PadQuiet(pad, pat);
    QuietConcat(Render([Chars(pad)]), key, pat);
    QuietConcat(Render([Chars(pad)]) + key, Render([Chars(pad)]), pat);
  }

  lemma {:induction false} PrintBalanced(v: Printed, pad: string)
    requires WellPrinted(v)
    ensures Balanced(Render(Print(v, pad)))
    decreases v
  {
    hide Balanced, Quiet, Render;
    if v.Map? && !v.selfClosed {
      PrintedDict(v, pad);
      EntriesBalanced(v.entries, pad);
      BalancedDict(Render(PrintEntries(v.entries, pad)));
    } else if v.Seq? && !v.selfClosed {
      var inner := PrintItems(v.items, pad);
      RenderWrapped("array", inner);
      NamedBalanced("array");
      assert "<" + "array" + ">" == "<array>" && "</" + "array" + ">" == "</array>";
      assert "<array>" + Render(inner) + "</" + "array" + ">" == "<array>" + Render(inner) + "</array>";
      ItemsBalanced(v.items, pad);
      BalancedConcat("<array>", Render(inner));
      BalancedConcat("<array>" + Render(inner), "</array>");
    } else if v.Map? || v.Seq? {
      SelfClosedBalanced(v, pad);
    } else {
      LeavesQuiet(v, pad, OPEN);
      LeavesQuiet(v, pad, CLOSE);
      BalancedQuiet(Render(Print(v, pad)));
    }
  }

  lemma {:induction false} ItemsBalanced(a: Items, pad: string)
    requires WellPrintedItems(a)
    ensures Balanced(Render(PrintItems(a, pad)))
    decreases a
  {
    hide Balanced, Quiet, Render, Print;
    PadQuiet(pad, OPEN);
    PadQuiet(pad, CLOSE);
    BalancedQuiet(Render([Chars(pad)]));
    if a.Item? {
      PrintBalanced(a.head, pad);
      ItemsBalanced(a.tail, pad);
      RenderConcat([Chars(pad)] + Print(a.head, pad), PrintItems(a.tail, pad));
      RenderConcat([Chars(pad)], Print(a.head, pad));
      BalancedConcat(Render([Chars(pad)]), Render(Print(a.head, pad)));
      BalancedConcat(Render([Chars(pad)]) + Render(Print(a.head, pad)), Render(PrintItems(a.tail, pad)));
    }
  }

  lemma {:induction false} EntriesBalanced(e: Entries, pad: string)
    requires WellPrintedEntries(e)
    ensures Balanced(Render(PrintEntries(e, pad)))
    decreases e
  {
    hide Balanced, Quiet, Render, Print, PrintKey;
    if e.NoEntries? {
      PadQuiet(pad, OPEN);
      PadQuiet(pad, CLOSE);
      BalancedQuiet(Render([Chars(pad)]));
    } else {
      PrintBalanced(e.value, pad);
      EntriesBalanced(e.tail, pad);
      KeyPartQuiet(e.key, pad, OPEN);
      KeyPartQuiet(e.key, pad, CLOSE);
      BalancedQuiet(Render(PrintKey(e.key, pad)));
      RenderConcat(PrintKey(e.key, pad) + Print(e.value, pad), PrintEntries(e.tail, pad));
      RenderConcat(PrintKey(e.key, pad), Print(e.value, pad));
      BalancedConcat(Render(PrintKey(e.key, pad)), Render(Print(e.value, pad)));
      BalancedConcat(Render(PrintKey(e.key, pad)) + Render(Print(e.value, pad)), Render(PrintEntries(e.tail, pad)));
    }
  }

  lemma PrintedDict(v: Printed, pad: string)
    requires v.Map? && !v.selfClosed
    ensures Render(Print(v, pad)) == OPEN + Render(PrintEntries(v.entries, pad)) + CLOSE
  {
    hide Render;
    var inner := Render(PrintEntries(v.entries, pad));
    RenderWrapped("dict", PrintEntries(v.entries, pad));
    assert "<" + "dict" + ">" == OPEN;
    assert OPEN + inner + "</" + "dict" + ">" == OPEN + inner + CLOSE;
  }

  lemma NamedBalanced(n: string)
    requires LeafName(n)
    ensures Balanced("<" + n + ">") && Balanced("</" + n + ">")
  {
    hide Balanced, Quiet;
    NamedQuiet(n, OPEN);
    NamedQuiet(n, CLOSE);
    BalancedQuiet("<" + n + ">");
    BalancedQuiet("</" + n + ">");
  }

  lemma SelfClosedBalanced(v: Printed, pad: string)
    requires (v.Map? || v.Seq?) && v.selfClosed
    ensures Balanced(Render(Print(v, pad)))
  {
    hide Balanced, Quiet, Render;
    var n := if v.Map? then "dict" else "array";
    RenderOne(Empty(n));
    ClosedQuiet(n, OPEN);
    ClosedQuiet(n, CLOSE);
    BalancedQuiet("<" + n + "/>");
  }

  lemma ClosedQuiet(n: string, pat: string)
    requires IsPattern(pat) && (n == "dict" || n == "array")
    ensures Quiet("<" + n + "/>", pat)
  {
    hide Quiet;
    assert "<" + n + "/>" == "<" + (n + "/") + ">";
    assert (n + "/")[|n|] == '/';
    assert FirstTag(pat)[|FirstTag(pat)| - 1] != '/';
    TagQuiet(n + "/", pat);
  }

  // ----- finding the key -----

  /** The value of the first entry with the key, in the order of the text and at any depth. */
  function KeyIn(v: Printed): Option<Printed> {
    match v
    case Seq(items, _) => KeyInItems(items)
    case Map(entries, _) => KeyInEntries(entries)
    case _ => None
  }

  function KeyInItems(a: Items): Option<Printed> {
    if a.NoItems? then None
    else if KeyIn(a.head).Some? then KeyIn(a.head)
    else KeyInItems(a.tail)
  }

  function KeyInEntries(e: Entries): Option<Printed> {
    if e.NoEntries? then None
    else if e.key == KEY then Some(e.value)
    else if KeyIn(e.value).Some? then KeyIn(e.value)
    else KeyInEntries(e.tail)
  }

  lemma {:induction false} PrintQuiet(v: Printed, pad: string)
    requires WellPrinted(v) && KeyIn(v).None?
    ensures Quiet(Render(Print(v, pad)), KEY_TAG)
    decreases v
  {
    hide Quiet, Render;
    if (v.Map? || v.Seq?) && !v.selfClosed {
      var n := if v.Map? then "dict" else "array";
      var inner := if v.Map? then PrintEntries(v.entries, pad) else PrintItems(v.items, pad);
      if v.Map? { EntriesQuiet(v.entries, pad); } else { ItemsQuiet(v.items, pad); }
      WrappedQuiet(n, inner);
    } else if v.Map? || v.Seq? {
      var n := if v.Map? then "dict" else "array";
      RenderOne(Empty(n));
      ClosedQuiet(n, KEY_TAG);
    } else {
      LeavesQuiet(v, pad, KEY_TAG);
    }
  }

  lemma WrappedQuiet(n: string, inner: seq<Piece>)
    requires (n == "dict" || n == "array") && Quiet(Render(inner), KEY_TAG)
    ensures Quiet(Render([Open(n)] + inner + [Close(n)]), KEY_TAG)
  {
    hide Quiet, Render;
    RenderWrapped(n, inner);
    NamedQuiet(n, KEY_TAG);
    QuietConcat("<" + n + ">", Render(inner), KEY_TAG);
    QuietConcat("<" + n + ">" + Render(inner), "</" + n + ">", KEY_TAG);
    assert "<" + n + ">" + Render(inner) + "</" + n + ">" == "<" + n + ">" + Render(inner) + ("</" + n + ">");
  }

  lemma {:induction false} ItemsQuiet(a: Items, pad: string)
    requires WellPrintedItems(a) && KeyInItems(a).None?
    ensures Quiet(Render(PrintItems(a, pad)), KEY_TAG)
    decreases a
  {
    hide Quiet, Render, Print;
    PadQuiet(pad, KEY_TAG);
    if a.Item? {
      PrintQuiet(a.head, pad);
      ItemsQuiet(a.tail, pad);
      RenderConcat([Chars(pad)] + Print(a.head, pad), PrintItems(a.tail, pad));
      RenderConcat([Chars(pad)], Print(a.head, pad));
      QuietConcat(Render([Chars(pad)]), Render(Print(a.head, pad)), KEY_TAG);
      QuietConcat(Render([Chars(pad)]) + Render(Print(a.head, pad)), Render(PrintItems(a.tail, pad)), KEY_TAG);
    }
  }

  lemma {:induction false} EntriesQuiet(e: Entries, pad: string)
    requires WellPrintedEntries(e) && KeyInEntries(e).None?
    ensures Quiet(Render(PrintEntries(e, pad)), KEY_TAG)
    decreases e
  {
    hide Quiet, Render, Print, PrintKey;
    if e.NoEntries? {
      PadQuiet(pad, KEY_TAG);
    } else {
      PrintQuiet(e.value, pad);
      EntriesQuiet(e.tail, pad);
      KeyPartQuiet(e.key, pad, KEY_TAG);
      RenderConcat(PrintKey(e.key, pad) + Print(e.value, pad), PrintEntries(e.tail, pad));
      RenderConcat(PrintKey(e.key, pad), Print(e.value, pad));
      QuietConcat(Render(PrintKey(e.key, pad)), Render(Print(e.value, pad)), KEY_TAG);
      QuietConcat(Render(PrintKey(e.key, pad)) + Render(Print(e.value, pad)), Render(PrintEntries(e.tail, pad)), KEY_TAG);
    }
  }

  // ----- cutting -----

  /** Behind text without the key, the cut starts at the first dict after the key. */
  lemma ExtractBehind(front: string, rest: string)
    requires Quiet(front, KEY_TAG) && KEY_TAG <= rest
    ensures Extract(front + rest) == CutDict(rest)
  {
    hide CutDict, Find, HEAD, FOOT;
    assert Skips(front, rest, KEY_TAG);
    FindSkips(front, rest, KEY_TAG);
    FoundAtFront(rest, KEY_TAG);
    assert (front + rest)[|front|..] == rest;
  }

  lemma FoundAtFront(s: string, pat: string)
    requires pat <= s
    ensures Find(s, pat) == 0
  {}

  /** A dict printed behind the key and a gap without dicts is cut out exactly. */
  lemma CutExact(front: string, gap: string, inner: string, tail: string)
    requires Quiet(front, KEY_TAG) && Quiet(gap, OPEN) && KEY_TAG <= gap && Balanced(inner)
    ensures Extract(front + (gap + (OPEN + inner + CLOSE + tail))) == Some(HEAD + (OPEN + inner + CLOSE) + FOOT)
  {
    hide Quiet, Balanced, CloseAt, Find, Extract;
    var dict := OPEN + inner + CLOSE;
    var rest := gap + (dict + tail);
    BalancedDict(inner);
    assert CloseAt(dict + tail, 0) == Some(|dict|);
    KeyThenDict(gap, dict + tail);
    ExtractBehind(front, rest);
    assert rest[|gap|..] == dict + tail;
    assert rest[|gap|..|gap| + |dict|] == dict;
  }

  lemma KeyThenDict(gap: string, dict: string)
    requires Quiet(gap, OPEN) && OPEN <= dict
    ensures Find(gap + dict, OPEN) == |gap|
  {
    assert Skips(gap, dict, OPEN);
    FindSkips(gap, dict, OPEN);
  }

  /** Whatever is cut out starts with an open tag of a dict. */
  lemma CutStartsWithDict(front: string, rest: string)
    requires Quiet(front, KEY_TAG) && KEY_TAG <= rest
    ensures Extract(front + rest).Some? ==>
      exists x: string :: OPEN <= x && Extract(front + rest) == Some(HEAD + x + FOOT)
  {
    hide Quiet, Extract;
    ExtractBehind(front, rest);
    if Extract(front + rest).Some? {
      var open := Find(rest, OPEN);
      var n := CloseAt(rest[open..], 0).value;
      assert n >= 6;
      assert OPEN <= rest[open..open + n];
    }
  }

  // ----- profiles -----

  function Gap(pad: string): string { KEY_TAG + Render([Chars(pad)]) }

  /** The rendered text around the value of the first key: no key is found in what comes before. */
  ghost predicate AtKey(text: string, front: string, v: Printed, pad: string, tail: string) {
    text == front + (Gap(pad) + (Render(Print(v, pad)) + tail)) && Quiet(front, KEY_TAG)
  }

  lemma AtKeyInside(before: string, text: string, after: string, front: string, v: Printed, pad: string, tail: string)
    requires Quiet(before, KEY_TAG) && AtKey(text, front, v, pad, tail)
    ensures AtKey(before + text + after, before + front, v, pad, tail + after)
  {
    hide Quiet, Render, Print, Gap;
    QuietConcat(before, front, KEY_TAG);
    var value := Render(Print(v, pad));
    assert before + (front + (Gap(pad) + (value + tail))) + after
        == before + front + (Gap(pad) + (value + (tail + after)));
  }

  lemma {:induction false} SplitValue(v: Printed, pad: string) returns (front: string, tail: string)
    requires WellPrinted(v) && KeyIn(v).Some?
    ensures AtKey(Render(Print(v, pad)), front, KeyIn(v).value, pad, tail)
    decreases v
  {
    hide Quiet, Render, AtKey;
    var n := if v.Map? then "dict" else "array";
    var f, t;
    var inner := if v.Map? then PrintEntries(v.entries, pad) else PrintItems(v.items, pad);
    if v.Map? {
      f, t := SplitEntries(v.entries, pad);
    } else {
      f, t := SplitItems(v.items, pad);
    }
    RenderWrapped(n, inner);
    NamedQuiet(n, KEY_TAG);
    front, tail := "<" + n + ">" + f, t + ("</" + n + ">");
    AtKeyInside("<" + n + ">", Render(inner), "</" + n + ">", f, KeyIn(v).value, pad, t);
    assert "<" + n + ">" + Render(inner) + "</" + n + ">" == "<" + n + ">" + Render(inner) + ("</" + n + ">");
  }

  lemma {:induction false} SplitItems(a: Items, pad: string) returns (front: string, tail: string)
    requires WellPrintedItems(a) && KeyInItems(a).Some?
    ensures AtKey(Render(PrintItems(a, pad)), front, KeyInItems(a).value, pad, tail)
    decreases a
  {
    hide Quiet, Render, Print, AtKey;
    var gap, text, rest := Render([Chars(pad)]), Render(Print(a.head, pad)), Render(PrintItems(a.tail, pad));
    RenderConcat([Chars(pad)] + Print(a.head, pad), PrintItems(a.tail, pad));
    RenderConcat([Chars(pad)], Print(a.head, pad));
    PadQuiet(pad, KEY_TAG);
    if KeyIn(a.head).Some? {
      var f, t := SplitValue(a.head, pad);
      front, tail := gap + f, t + rest;
      AtKeyInside(gap, text, rest, f, KeyIn(a.head).value, pad, t);
    } else {
      PrintQuiet(a.head, pad);
      var f, t := SplitItems(a.tail, pad);
      front, tail := gap + text + f, t + "";
      QuietConcat(gap, text, KEY_TAG);
      AtKeyInside(gap + text, rest, "", f, KeyInItems(a.tail).value, pad, t);
      assert gap + text + rest + "" == gap + text + rest;
    }
  }

  lemma {:induction false} SplitEntries(e: Entries, pad: string) returns (front: string, tail: string)
    requires WellPrintedEntries(e) && KeyInEntries(e).Some?
    ensures AtKey(Render(PrintEntries(e, pad)), front, KeyInEntries(e).value, pad, tail)
    decreases e
  {
    hide Quiet, Render, Print, PrintKey, AtKey;
    var key, text, rest := Render(PrintKey(e.key, pad)), Render(Print(e.value, pad)), Render(PrintEntries(e.tail, pad));
    RenderConcat(PrintKey(e.key, pad) + Print(e.value, pad), PrintEntries(e.tail, pad));
    RenderConcat(PrintKey(e.key, pad), Print(e.value, pad));
    if e.key == KEY {
      front, tail := Render([Chars(pad)]), rest;
      FirstEntryIsKey(e, pad);
    } else {
      KeyPartQuiet(e.key, pad, KEY_TAG);
      if KeyIn(e.value).Some? {
        var f, t := SplitValue(e.value, pad);
        front, tail := key + f, t + rest;
        AtKeyInside(key, text, rest, f, KeyIn(e.value).value, pad, t);
      } else {
        PrintQuiet(e.value, pad);
        var f, t := SplitEntries(e.tail, pad);
        front, tail := key + text + f, t + "";
        QuietConcat(key, text, KEY_TAG);
        AtKeyInside(key + text, rest, "", f, KeyInEntries(e.tail).value, pad, t);
        assert key + text + rest + "" == key + text + rest;
      }
    }
  }

  lemma FirstEntryIsKey(e: Entries, pad: string)
    requires e.Entry? && e.key == KEY
    ensures AtKey(Render(PrintKey(e.key, pad)) + Render(Print(e.value, pad)) + Render(PrintEntries(e.tail, pad)),
                  Render([Chars(pad)]), e.value, pad, Render(PrintEntries(e.tail, pad)))
  {
    hide Quiet, Render, Print, PrintKey, PrintEntries, Gap;
    PadQuiet(pad, KEY_TAG);
    KeyThenGap(pad);
    var gap, text, rest := Render([Chars(pad)]), Render(Print(e.value, pad)), Render(PrintEntries(e.tail, pad));
    assert gap + Gap(pad) + text + rest == gap + (Gap(pad) + (text + rest));
  }

  lemma KeyElement()
    ensures "<key>" + Escape(KEY) + "</key>" == KEY_TAG
  {
    assert NeedsNoEscape(KEY);
    hide Escape;
    EscapePlain(KEY);
  }

  lemma KeyThenGap(pad: string)
    ensures Render(PrintKey(KEY, pad)) == Render([Chars(pad)]) + Gap(pad)
  {
    hide Render, PrintKey, Escape;
    RenderKey(KEY, pad);
    KeyElement();
  }

  lemma GapQuiet(pad: string)
    ensures Quiet(Gap(pad), OPEN) && KEY_TAG <= Gap(pad)
  {
    hide Quiet, Render, Escape;
    RenderLeaf("key", KEY);
    assert "<" + "key" + ">" == "<key>" && "</" + "key" + ">" == "</key>";
    KeyElement();
    assert "<key>" + Escape(KEY) + "</" + "key" + ">" == "<key>" + Escape(KEY) + "</key>";
    LeafQuiet("key", KEY, OPEN);
    PadQuiet(pad, OPEN);
    QuietConcat(KEY_TAG, Render([Chars(pad)]), OPEN);
  }

  /** No key element starts in the text: every tag in it starts with another letter. */
  predicate NoKeyTags(s: string) { forall k :: 0 <= k < |s| && s[k] == '<' ==> k + 1 < |s| && s[k + 1] != 'k' }

  lemma NoKeyTagsQuiet(s: string)
    requires NoKeyTags(s)
    ensures Quiet(s, KEY_TAG)
  {
    forall rest: string, k | 0 <= k < |s|
      ensures !(KEY_TAG <= s[k..] + rest)
    {
      var t := s[k..] + rest;
      assert t[0] == s[k];
      assert k + 1 < |s| ==> t[1] == s[k + 1];
      assert KEY_TAG[0] == '<' && KEY_TAG[1] == 'k';
    }
  }

  /** The profile: a prolog, the printed dict, and whatever follows. */
  function Profile(prolog: string, e: Entries, pad: string, epilog: string): string {
    prolog + Render(Print(Map(e, false), pad)) + epilog
  }

  /** The profile as what is before the key, and what starts with it. */
  lemma ProfileAtKey(prolog: string, e: Entries, pad: string, epilog: string) returns (front: string, tail: string)
    requires NoKeyTags(prolog) && WellPrintedEntries(e) && KeyInEntries(e).Some?
    ensures AtKey(Profile(prolog, e, pad, epilog), front, KeyInEntries(e).value, pad, tail)
  {
    var v := Map(e, false);
    assert WellPrinted(v) && KeyIn(v) == KeyInEntries(e);
    hide Quiet, Render, Print, PrintEntries, AtKey, WellPrinted, KeyIn;
    var f, t := SplitValue(v, pad);
    NoKeyTagsQuiet(prolog);
    front, tail := prolog + f, t + epilog;
    AtKeyInside(prolog, Render(Print(v, pad)), epilog, f, KeyIn(v).value, pad, t);
  }

  lemma {:induction false} KeyedValuePrinted(v: Printed)
    requires WellPrinted(v) && KeyIn(v).Some?
    ensures WellPrinted(KeyIn(v).value)
    decreases v
  {
    match v
    case Seq(items, _) => KeyedItemPrinted(items);
    case Map(entries, _) => KeyedEntryPrinted(entries);
  }

  lemma {:induction false} KeyedItemPrinted(a: Items)
    requires WellPrintedItems(a) && KeyInItems(a).Some?
    ensures WellPrinted(KeyInItems(a).value)
    decreases a
  {
    if KeyIn(a.head).Some? { KeyedValuePrinted(a.head); } else { KeyedItemPrinted(a.tail); }
  }

  lemma {:induction false} KeyedEntryPrinted(e: Entries)
    requires WellPrintedEntries(e) && KeyInEntries(e).Some?
    ensures WellPrinted(KeyInEntries(e).value)
    decreases e
  {
    if e.key != KEY {
      if KeyIn(e.value).Some? { KeyedValuePrinted(e.value); } else { KeyedEntryPrinted(e.tail); }
    }
  }

  /** Exactly the values printed as an open dict start with the dict tag. */
  lemma StartsWithDict(v: Printed, pad: string)
    requires WellPrinted(v)
    ensures OPEN <= Render(Print(v, pad)) <==> v.Map? && !v.selfClosed
  {
    hide Render;
    var t := Render(Print(v, pad));
    if v.Map? && !v.selfClosed {
      PrintedDict(v, pad);
    } else {
      if v.Seq? && !v.selfClosed {
        RenderWrapped("array", PrintItems(v.items, pad));
        assert t[1] == 'a';
      } else if v.Map? || v.Seq? {
        RenderOne(Empty(Tag(v)));
        ClosedQuiet(Tag(v), OPEN);
        assert Skips(t, "", OPEN) && t[0..] + "" == t;
      } else {
        LeavesQuiet(v, pad, OPEN);
        assert Skips(t, "", OPEN) && t[0..] + "" == t;
      }
    }
  }

  /** The scan cuts out the text of the first key's value exactly when that is printed as an open dict. */
  lemma CutsExactlyTheDict(prolog: string, e: Entries, pad: string, epilog: string)
    requires NoKeyTags(prolog) && WellPrintedEntries(e) && KeyInEntries(e).Some?
    ensures var v := KeyInEntries(e).value;
      Extract(Profile(prolog, e, pad, epilog)) == Some(HEAD + Render(Print(v, pad)) + FOOT) <==>
        v.Map? && !v.selfClosed
  {
    hide *;
    var v := KeyInEntries(e).value;
    var text := Render(Print(v, pad));
    var front, tail := ProfileAtKey(prolog, e, pad, epilog);
    AtKeyMeans(Profile(prolog, e, pad, epilog), front, v, pad, tail);
    KeyedEntryPrinted(e);
    StartsWithDict(v, pad);
    GapQuiet(pad);
    if v.Map? && !v.selfClosed {
      OpenDictIsCut(front, v, pad, tail);
    } else {
      CutStartsWithDict(front, Gap(pad) + (text + tail));
      forall x: string | HEAD + x + FOOT == HEAD + text + FOOT
        ensures x == text
      {
        SameMiddle(HEAD, x, text, FOOT);
      }
    }
  }

  lemma AtKeyMeans(s: string, front: string, v: Printed, pad: string, tail: string)
    requires AtKey(s, front, v, pad, tail)
    ensures s == front + (Gap(pad) + (Render(Print(v, pad)) + tail)) && Quiet(front, KEY_TAG)
  {}

  lemma OpenDictIsCut(front: string, v: Printed, pad: string, tail: string)
    requires WellPrinted(v) && v.Map? && !v.selfClosed && Quiet(front, KEY_TAG)
    ensures Extract(front + (Gap(pad) + (Render(Print(v, pad)) + tail))) == Some(HEAD + Render(Print(v, pad)) + FOOT)
  {
    PrintedDict(v, pad);
    EntriesBalanced(v.entries, pad);
    GapQuiet(pad);
    CutExact(front, Gap(pad), Render(PrintEntries(v.entries, pad)), tail);
  }

  lemma SameMiddle(a: string, x: string, y: string, b: string)
    requires a + x + b == a + y + b
    ensures x == y
  {
    assert |x| == |y|;
    assert x == (a + x + b)[|a|..|a| + |x|];
    assert y == (a + y + b)[|a|..|a| + |y|];
  }

  /** Without the key anywhere, the result is the empty entitlements. */
  lemma NoKeyNoEntitlements(prolog: string, e: Entries, pad: string, epilog: string)
    requires NoKeyTags(prolog) && WellPrintedEntries(e) && KeyInEntries(e).None? && NoKeyTags(epilog)
    ensures Extract(Profile(prolog, e, pad, epilog)) == Some(HEAD + "<dict/>" + FOOT)
  {
    hide Quiet, Render, Print, HEAD, FOOT;
    var v := Map(e, false);
    PrintQuiet(v, pad);
    NoKeyTagsQuiet(prolog);
    NoKeyTagsQuiet(epilog);
    QuietConcat(prolog, Render(Print(v, pad)), KEY_TAG);
    QuietConcat(prolog + Render(Print(v, pad)), epilog, KEY_TAG);
    NotFound(Profile(prolog, e, pad, epilog), KEY_TAG);
  }

  lemma NotFound(s: string, pat: string)
    requires Quiet(s, pat) && pat != ""
    ensures Find(s, pat) == |s| + 1
  {
    assert Skips(s, "", pat);
    assert s + "" == s;
    FindSkips(s, "", pat);
  }

  // ----- texts that are not profiles -----

  /** With the key but without an open dict, or without a close tag, behind it there is no result. */
  lemma NoDictNoResult(front: string, rest: string)
    requires Quiet(front, KEY_TAG) && KEY_TAG <= rest
    requires Find(rest, OPEN) > |rest| || Find(rest, CLOSE) > |rest|
    ensures Extract(front + rest) == None
  {
    hide CloseAt, Find, Quiet, Extract, OPEN, CLOSE, HEAD, FOOT;
    ExtractBehind(front, rest);
    var open := Find(rest, OPEN);
    if open <= |rest| {
      NotInTail(rest, open, CLOSE);
      NeverCloses(rest[open..], 0);
    }
  }

  lemma {:induction false} NotInTail(s: string, i: nat, pat: string)
    requires i <= |s| && Find(s, pat) > |s|
    ensures Find(s[i..], pat) > |s[i..]|
    decreases i
  {
    if i > 0 {
      assert s[1..][i - 1..] == s[i..];
      NotInTail(s[1..], i - 1, pat);
    } else {
      assert s[0..] == s;
    }
  }

  lemma {:induction false} NeverCloses(s: string, depth: int)
    requires Find(s, CLOSE) > |s|
    ensures CloseAt(s, depth) == None
    decreases |s|
  {
    if s != "" {
      if OPEN <= s {
        NotInTail(s, 6, CLOSE);
        NeverCloses(s[6..], depth + 1);
      } else {
        NeverCloses(s[1..], depth);
      }
    }
  }
}
