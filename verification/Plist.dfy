/** Property lists: the values, how they are printed, and the recursive reader over XML tokens. */
module Plist {
  import opened Basics
  import opened Texts
  import Base64

  // ----- tokens and values -----

  /** What the XML decoder delivers; Other stands for comments, directives and instructions. */
  datatype Token = Start(name: string) | End(name: string) | Text(s: string) | Other

  datatype Value =
    | Str(s: string)
    | Flag(b: bool)
    | Data(d: Bytes)
    | List(items: seq<Value>)
    | Dict(entries: map<string, Value>)

  // ----- reading -----

  type Rest = seq<Token>

  /** Skips to the end of the current element; inner counts the elements open inside it. */
  function Skip(toks: Rest, inner: nat): (r: Option<Rest>)
    ensures r.Some? ==> |r.value| < |toks|
    decreases |toks|
  {
    if toks == [] then None
    else
      match toks[0]
      case Start(_) => Skip(toks[1..], inner + 1)
      case End(_) => if inner == 0 then Some(toks[1..]) else Skip(toks[1..], inner - 1)
      case _ => Skip(toks[1..], inner)
  }

  /** The character data directly inside the current element, up to its end. */
  function ElementText(toks: Rest): (r: Option<(string, Rest)>)
    ensures r.Some? ==> |r.value.1| < |toks|
    decreases |toks|
  {
    if toks == [] then None
    else
      match toks[0]
      case Text(s) =>
        (match ElementText(toks[1..])
         case None => None
         case Some(more) => Some((s + more.0, more.1)))
      case Start(_) =>
        (match Skip(toks[1..], 0)
         case None => None
         case Some(rest) => ElementText(rest))
      case End(_) => Some(("", toks[1..]))
      case Other => ElementText(toks[1..])
  }

  /** Reads the value whose start element, called name, has just been consumed. */
  function ReadValue(name: string, toks: Rest): (r: Option<(Value, Rest)>)
    ensures r.Some? ==> |r.value.1| < |toks|
    decreases |toks|, 1
  {
    if name == "dict" then ReadDict(map[], "", toks)
    else if name == "array" then ReadArray([], toks)
    else if name == "true" || name == "false" then
      match Skip(toks, 0)
      case None => None
      case Some(rest) => Some((Flag(name == "true"), rest))
    else
      match ElementText(toks)
      case None => None
      case Some(t) =>
        if name == "data" then
          match Base64.Decode(Squeeze(t.0))
          case None => None
          case Some(d) => Some((Data(d), t.1))
        else Some((Str(Trim(t.0)), t.1))
  }

  /** The loop over a dict's tokens, with the entries so far and the last key seen. */
  function ReadDict(m: map<string, Value>, key: string, toks: Rest): (r: Option<(Value, Rest)>)
    ensures r.Some? ==> r.value.0.Dict? && |r.value.1| < |toks|
    decreases |toks|, 0
  {
    if toks == [] then None
    else
      match toks[0]
      case Start(name) =>
        if name == "key" then
          match ElementText(toks[1..])
          case None => None
          case Some(t) => ReadDict(m, t.0, t.1)
        else
          (match ReadValue(name, toks[1..])
           case None => None
           case Some(v) => ReadDict(m[key := v.0], key, v.1))
      case End(_) => Some((Dict(m), toks[1..]))
      case _ => ReadDict(m, key, toks[1..])
  }

  function ReadArray(a: seq<Value>, toks: Rest): (r: Option<(Value, Rest)>)
    ensures r.Some? ==> |r.value.1| < |toks|
    decreases |toks|, 0
  {
    if toks == [] then None
    else
      match toks[0]
      case Start(name) =>
        (match ReadValue(name, toks[1..])
         case None => None
         case Some(v) => ReadArray(a + [v.0], v.1))
      case End(_) => Some((List(a), toks[1..]))
      case _ => ReadArray(a, toks[1..])
  }

  /** The first dict of a document. */
  function ReadPlist(toks: Rest): Option<Value>
    decreases |toks|
  {
    if toks == [] then None
    else if toks[0] == Start("dict") then
      match ReadValue("dict", toks[1..])
      case None => None
      case Some(v) => Some(v.0)
    else ReadPlist(toks[1..])
  }

  // ----- printing -----

  /** A property list as it is written: scalars with their tag, entries in order. An empty dict or
      array may be written as one self-closed element. */
  datatype Printed =
    | Scalar(tag: string, s: string)
    | Bool(b: bool)
    | Blob(d: Bytes)
    | Seq(items: Items, selfClosed: bool)
    | Map(entries: Entries, selfClosed: bool)

  datatype Items = NoItems | Item(head: Printed, tail: Items)

  datatype Entries = NoEntries | Entry(key: string, value: Printed, tail: Entries)

  /** A piece of the document as it is written. */
  datatype Piece = Open(name: string) | Close(name: string) | Empty(name: string) | Chars(s: string)

  /** Any other element than those with a meaning of their own is read as a string. */
  predicate ScalarTag(t: string) {
    && t !in {"dict", "array", "true", "false", "data", "key"}
    && '<' !in t && '>' !in t && '/' !in t
  }

  /** Scalars carry trimmed text under a scalar tag; only what is empty is self-closed. */
  predicate WellPrinted(v: Printed) {
    match v
    case Scalar(tag, s) => ScalarTag(tag) && Trimmed(s)
    case Bool(_) => true
    case Blob(_) => true
    case Seq(items, selfClosed) => WellPrintedItems(items) && (selfClosed ==> items.NoItems?)
    case Map(entries, selfClosed) => WellPrintedEntries(entries) && (selfClosed ==> entries.NoEntries?)
  }

  predicate WellPrintedItems(a: Items) { a.Item? ==> WellPrinted(a.head) && WellPrintedItems(a.tail) }

  predicate WellPrintedEntries(e: Entries) { e.Entry? ==> WellPrinted(e.value) && WellPrintedEntries(e.tail) }

  /** pad is the white space put between and around everything. */
  function Print(v: Printed, pad: string): seq<Piece> {
    match v
    case Scalar(tag, s) => [Open(tag), Chars(pad + s + pad), Close(tag)]
    case Bool(b) => [Empty(if b then "true" else "false")]
    case Blob(d) => [Open("data"), Chars(pad + Base64.Encode(d) + pad), Close("data")]
    case Seq(items, selfClosed) =>
      if selfClosed then [Empty("array")] else [Open("array")] + PrintItems(items, pad) + [Close("array")]
    case Map(entries, selfClosed) =>
      if selfClosed then [Empty("dict")] else [Open("dict")] + PrintEntries(entries, pad) + [Close("dict")]
  }

  function PrintItems(a: Items, pad: string): seq<Piece> {
    match a
    case NoItems => [Chars(pad)]
    case Item(v, rest) => [Chars(pad)] + Print(v, pad) + PrintItems(rest, pad)
  }

  function PrintEntries(e: Entries, pad: string): seq<Piece> {
    match e
    case NoEntries => [Chars(pad)]
    case Entry(k, v, rest) => PrintKey(k, pad) + Print(v, pad) + PrintEntries(rest, pad)
  }

  function PrintKey(k: string, pad: string): seq<Piece> {
    [Chars(pad), Open("key"), Chars(k), Close("key"), Chars(pad)]
  }

  /** What the decoder makes of the pieces. */
  function Tokens(ps: seq<Piece>): Rest {
    if ps == [] then []
    else
      (match ps[0]
       case Open(n) => [Start(n)]
       case Close(n) => [End(n)]
       case Empty(n) => [Start(n), End(n)]
       case Chars(s) => [Text(s)]) + Tokens(ps[1..])
  }

  lemma {:induction false} TokensConcat(a: seq<Piece>, b: seq<Piece>)
    ensures Tokens(a + b) == Tokens(a) + Tokens(b)
    decreases |a|
  {
    if a == [] {
      assert a + b == b;
    } else {
      assert (a + b)[1..] == a[1..] + b;
      TokensConcat(a[1..], b);
    }
  }

  // ----- reading undoes printing -----

  /** The value a printed list stands for: a later entry replaces an earlier one of the same key. */
  function Denote(v: Printed): Value {
    match v
    case Scalar(_, s) => Str(s)
    case Bool(b) => Flag(b)
    case Blob(d) => Data(d)
    case Seq(items, _) => List(DenoteItems(items))
    case Map(entries, _) => Dict(DenoteEntries(map[], entries))
  }

  function DenoteItems(a: Items): seq<Value> {
    match a
    case NoItems => []
    case Item(v, rest) => [Denote(v)] + DenoteItems(rest)
  }

  function DenoteEntries(m: map<string, Value>, e: Entries): map<string, Value>
    decreases e
  {
    match e
    case NoEntries => m
    case Entry(k, v, rest) => DenoteEntries(m[k := Denote(v)], rest)
  }

  /** The tag a printed value opens with. */
  function Tag(v: Printed): string {
    match v
    case Scalar(tag, _) => tag
    case Bool(b) => if b then "true" else "false"
    case Blob(_) => "data"
    case Seq(_, _) => "array"
    case Map(_, _) => "dict"
  }

  /** The tokens of a printed value after its start element. */
  function Body(v: Printed, pad: string): Rest {
    match v
    case Scalar(tag, s) => [Text(pad + s + pad), End(tag)]
    case Bool(b) => [End(Tag(v))]
    case Blob(d) => [Text(pad + Base64.Encode(d) + pad), End("data")]
    case Seq(items, selfClosed) =>
      if selfClosed then [End("array")] else Tokens(PrintItems(items, pad)) + [End("array")]
    case Map(entries, selfClosed) =>
      if selfClosed then [End("dict")] else Tokens(PrintEntries(entries, pad)) + [End("dict")]
  }

  lemma PrintIsTagAndBody(v: Printed, pad: string)
    ensures Tokens(Print(v, pad)) == [Start(Tag(v))] + Body(v, pad)
  {
    hide Tokens, PrintItems, PrintEntries;
    match v
    case Scalar(tag, s) => Leaf(tag, pad + s + pad);
    case Bool(b) => Wrapped(Tag(v), []);
    case Blob(d) => Leaf("data", pad + Base64.Encode(d) + pad);
    case Seq(items, selfClosed) => Wrapped("array", PrintItems(items, pad));
    case Map(entries, selfClosed) => Wrapped("dict", PrintEntries(entries, pad));
  }

  lemma Leaf(name: string, s: string)
    ensures Tokens([Open(name), Chars(s), Close(name)]) == [Start(name)] + [Text(s), End(name)]
  {
    assert [Chars(s)][1..] == [];
    assert [Open(name), Chars(s), Close(name)] == [Open(name)] + [Chars(s)] + [Close(name)];
    Wrapped(name, [Chars(s)]);
    assert [Start(name)] + [Text(s)] + [End(name)] == [Start(name)] + [Text(s), End(name)];
  }

  lemma Wrapped(name: string, inner: seq<Piece>)
    ensures Tokens([Open(name)] + inner + [Close(name)]) == [Start(name)] + Tokens(inner) + [End(name)]
    ensures Tokens([Empty(name)]) == [Start(name), End(name)]
  {
    TokensConcat([Open(name)] + inner, [Close(name)]);
    TokensConcat([Open(name)], inner);
    assert [Open(name)][1..] == [] && [Close(name)][1..] == [] && [Empty(name)][1..] == [];
  }

  lemma TextThenEnd(s: string, name: string, rest: Rest)
    ensures ElementText([Text(s), End(name)] + rest) == Some((s, rest))
  {
    var toks := [Text(s), End(name)] + rest;
    assert toks[1..] == [End(name)] + rest;
    assert toks[1..][1..] == rest;
    assert s + "" == s;
  }

  lemma EndReads(name: string, rest: Rest)
    ensures Skip([End(name)] + rest, 0) == Some(rest)
  {
    assert ([End(name)] + rest)[1..] == rest;
  }

  lemma ReadScalar(tag: string, t: string, pad: string, rest: Rest)
    requires ScalarTag(tag) && Trimmed(t) && AllSpace(pad)
    ensures ReadValue(tag, [Text(pad + t + pad), End(tag)] + rest) == Some((Str(t), rest))
  {
    TextThenEnd(pad + t + pad, tag, rest);
    TrimPadded(pad, t);
    hide ElementText, Trim, AllSpace, Trimmed;
  }

  lemma ReadBlob(d: Bytes, pad: string, rest: Rest)
    requires AllSpace(pad)
    ensures ReadValue("data", [Text(pad + Base64.Encode(d) + pad), End("data")] + rest) == Some((Data(d), rest))
  {
    TextThenEnd(pad + Base64.Encode(d) + pad, "data", rest);
    Base64.EncodeIsSolid(d);
    SqueezePadded(pad, Base64.Encode(d));
    Base64.RoundTrip(d);
    hide ElementText, Squeeze, AllSpace, Base64.Encode, Base64.Decode;
  }

  lemma ReadClosed(name: string, m: map<string, Value>, key: string, a: seq<Value>, rest: Rest)
    ensures ReadDict(m, key, [End(name)] + rest) == Some((Dict(m), rest))
    ensures ReadArray(a, [End(name)] + rest) == Some((List(a), rest))
  {
    assert ([End(name)] + rest)[1..] == rest;
  }

  lemma ReadSeq(items: Items, pad: string, rest: Rest)
    requires ReadArray([], Tokens(PrintItems(items, pad)) + ([End("array")] + rest))
          == Some((List([] + DenoteItems(items)), rest))
    ensures ReadValue("array", Body(Seq(items, false), pad) + rest) == Some((List(DenoteItems(items)), rest))
  {
    hide Tokens, PrintItems, ReadArray, ReadDict, ElementText, Skip, DenoteItems;
    assert Body(Seq(items, false), pad) + rest == Tokens(PrintItems(items, pad)) + ([End("array")] + rest);
    assert [] + DenoteItems(items) == DenoteItems(items);
  }

  lemma ReadMap(entries: Entries, pad: string, rest: Rest)
    requires ReadDict(map[], "", Tokens(PrintEntries(entries, pad)) + ([End("dict")] + rest))
          == Some((Dict(DenoteEntries(map[], entries)), rest))
    ensures ReadValue("dict", Body(Map(entries, false), pad) + rest) == Some((Dict(DenoteEntries(map[], entries)), rest))
  {
    hide Tokens, PrintEntries, ReadArray, ReadDict, ElementText, Skip, DenoteEntries;
    assert Body(Map(entries, false), pad) + rest == Tokens(PrintEntries(entries, pad)) + ([End("dict")] + rest);
  }

  /** Reading the tokens of a printed value gives back the value, whatever tokens follow. */
  lemma {:induction false} ReadBody(v: Printed, pad: string, rest: Rest)
    requires WellPrinted(v) && AllSpace(pad)
    ensures ReadValue(Tag(v), Body(v, pad) + rest) == Some((Denote(v), rest))
    decreases v
  {
    hide AllSpace, ElementText, Skip, Tokens, ReadArray, ReadDict;
    match v
    case Scalar(tag, t) => ReadScalar(tag, t, pad, rest);
    case Bool(b) => EndReads(Tag(v), rest);
    case Blob(d) => ReadBlob(d, pad, rest);
    case Seq(items, selfClosed) =>
      if selfClosed {
        ReadClosed("array", map[], "", [], rest);
      } else {
        ReadItems([], items, pad, rest);
        ReadSeq(items, pad, rest);
      }
    case Map(entries, selfClosed) =>
      if selfClosed {
        ReadClosed("dict", map[], "", [], rest);
      } else {
        ReadEntries(map[], "", entries, pad, rest);
        ReadMap(entries, pad, rest);
      }
  }

  lemma ItemTokens(v: Printed, more: Items, pad: string, end: Rest)
    ensures Tokens(PrintItems(Item(v, more), pad)) + end ==
      [Text(pad)] + ([Start(Tag(v))] + (Body(v, pad) + (Tokens(PrintItems(more, pad)) + end)))
  {
    hide Tokens, Body, Print, Tag;
    TokensConcat([Chars(pad)] + Print(v, pad), PrintItems(more, pad));
    TokensConcat([Chars(pad)], Print(v, pad));
    PadTokens(pad);
    PrintIsTagAndBody(v, pad);
  }

  lemma {:induction false} ReadItems(a: seq<Value>, items: Items, pad: string, rest: Rest)
    requires WellPrintedItems(items) && AllSpace(pad)
    ensures ReadArray(a, Tokens(PrintItems(items, pad)) + ([End("array")] + rest))
         == Some((List(a + DenoteItems(items)), rest))
    decreases items
  {
    hide ReadValue, Body, Print, AllSpace, Tokens;
    var end := [End("array")] + rest;
    match items
    case NoItems =>
      PadTokens(pad);
      ReadPad(map[], "", a, pad, end);
      ReadClosed("array", map[], "", a, rest);
      assert a + [] == a;
    case Item(v, more) =>
      var tail := Tokens(PrintItems(more, pad)) + end;
      ItemTokens(v, more, pad, end);
      var toks := [Start(Tag(v))] + (Body(v, pad) + tail);
      ReadPad(map[], "", a, pad, toks);
      assert toks[1..] == Body(v, pad) + tail;
      ReadBody(v, pad, tail);
      ReadItems(a + [Denote(v)], more, pad, rest);
      assert a + [Denote(v)] + DenoteItems(more) == a + DenoteItems(items);
  }

  /** Text between elements is ignored. */
  lemma ReadPad(m: map<string, Value>, key: string, a: seq<Value>, pad: string, rest: Rest)
    ensures ReadDict(m, key, [Text(pad)] + rest) == ReadDict(m, key, rest)
    ensures ReadArray(a, [Text(pad)] + rest) == ReadArray(a, rest)
  {
    assert ([Text(pad)] + rest)[1..] == rest;
  }

  lemma PadTokens(pad: string)
    ensures Tokens([Chars(pad)]) == [Text(pad)]
  {
    assert [Chars(pad)][1..] == [];
  }

  lemma KeyTokens(k: string, pad: string)
    ensures Tokens(PrintKey(k, pad)) == [Text(pad), Start("key"), Text(k), End("key"), Text(pad)]
  {
    hide Tokens;
    var key := [Open("key"), Chars(k), Close("key")];
    assert PrintKey(k, pad) == [Chars(pad)] + key + [Chars(pad)];
    TokensConcat([Chars(pad)] + key, [Chars(pad)]);
    TokensConcat([Chars(pad)], key);
    Leaf("key", k);
    PadTokens(pad);
    assert [Text(pad)] + ([Start("key")] + [Text(k), End("key")]) + [Text(pad)]
        == [Text(pad), Start("key"), Text(k), End("key"), Text(pad)];
  }

  lemma {:induction false} ReadEntries(m: map<string, Value>, key: string, e: Entries, pad: string, rest: Rest)
    requires WellPrintedEntries(e) && AllSpace(pad)
    ensures ReadDict(m, key, Tokens(PrintEntries(e, pad)) + ([End("dict")] + rest))
         == Some((Dict(DenoteEntries(m, e)), rest))
    decreases e
  {
    var end := [End("dict")] + rest;
    match e
    case NoEntries =>
      PadTokens(pad);
      assert ([Text(pad)] + end)[1..] == end && end[1..] == rest;
    case Entry(k, v, more) =>
      var tail := Tokens(PrintEntries(more, pad)) + end;
      EntryTokens(k, v, more, pad, end);
      ReadKey(m, key, k, pad, [Start(Tag(v))] + (Body(v, pad) + tail));
      ReadBody(v, pad, tail);
      TagIsNotKey(v);
      var toks := [Start(Tag(v))] + (Body(v, pad) + tail);
      assert toks[1..] == Body(v, pad) + tail;
      ReadEntries(m[k := Denote(v)], k, more, pad, rest);
  }

  lemma TagIsNotKey(v: Printed)
    requires WellPrinted(v)
    ensures Tag(v) != "key"
  {}

  lemma EntryTokens(k: string, v: Printed, more: Entries, pad: string, end: Rest)
    ensures Tokens(PrintEntries(Entry(k, v, more), pad)) + end ==
      [Text(pad), Start("key"), Text(k), End("key"), Text(pad)] +
      ([Start(Tag(v))] + (Body(v, pad) + (Tokens(PrintEntries(more, pad)) + end)))
  {
    hide Tokens, Print, PrintKey, Body;
    TokensConcat(PrintKey(k, pad) + Print(v, pad), PrintEntries(more, pad));
    TokensConcat(PrintKey(k, pad), Print(v, pad));
    KeyTokens(k, pad);
    PrintIsTagAndBody(v, pad);
  }

  /** White space, a key element and white space only set the current key. */
  lemma ReadKey(m: map<string, Value>, key: string, k: string, pad: string, rest: Rest)
    ensures ReadDict(m, key, [Text(pad), Start("key"), Text(k), End("key"), Text(pad)] + rest)
         == ReadDict(m, k, rest)
  {
    hide ElementText;
    var after := [Text(pad)] + rest;
    var t1 := [Start("key")] + ([Text(k), End("key")] + after);
    assert [Text(pad), Start("key"), Text(k), End("key"), Text(pad)] + rest == [Text(pad)] + t1;
    ReadPad(m, key, [], pad, t1);
    assert t1[1..] == [Text(k), End("key")] + after;
    TextThenEnd(k, "key", after);
    ReadPad(m, k, [], pad, rest);
  }

  /** A whole document: anything without a dict start, then a printed dict, then anything. */
  lemma {:induction false} ReadDocument(before: Rest, entries: Entries, selfClosed: bool, pad: string, rest: Rest)
    requires WellPrinted(Map(entries, selfClosed)) && AllSpace(pad) && Start("dict") !in before
    ensures ReadPlist(before + Tokens(Print(Map(entries, selfClosed), pad)) + rest)
         == Some(Denote(Map(entries, selfClosed)))
    decreases |before|
  {
    var v := Map(entries, selfClosed);
    var toks := before + Tokens(Print(v, pad)) + rest;
    PrintIsTagAndBody(v, pad);
    if before == [] {
      assert toks[1..] == Body(v, pad) + rest;
      ReadBody(v, pad, rest);
    } else {
      assert toks[1..] == before[1..] + Tokens(Print(v, pad)) + rest;
      ReadDocument(before[1..], entries, selfClosed, pad, rest);
    }
  }

  // ----- with distinct keys nothing is lost -----

  function Keys(e: Entries): seq<string> { if e.NoEntries? then [] else [e.key] + Keys(e.tail) }

  predicate DistinctKeys(e: Entries) { e.Entry? ==> e.key !in Keys(e.tail) && DistinctKeys(e.tail) }

  predicate HasEntry(e: Entries, k: string, v: Printed) {
    e.Entry? && ((e.key == k && e.value == v) || HasEntry(e.tail, k, v))
  }

  lemma {:induction false} EntriesKept(m: map<string, Value>, e: Entries, k: string, v: Printed)
    requires DistinctKeys(e) && HasEntry(e, k, v)
    ensures k in Keys(e) && k in DenoteEntries(m, e) && DenoteEntries(m, e)[k] == Denote(v)
    decreases e
  {
    var m' := m[e.key := Denote(e.value)];
    if e.key == k && e.value == v {
      OthersKept(m', e.tail, k);
    } else {
      EntriesKept(m', e.tail, k, v);
    }
  }

  lemma {:induction false} OthersKept(m: map<string, Value>, e: Entries, k: string)
    requires k !in Keys(e)
    ensures k in DenoteEntries(m, e) <==> k in m
    ensures k in m ==> DenoteEntries(m, e)[k] == m[k]
    decreases e
  {
    if e.Entry? {
      assert k != e.key && k !in Keys(e.tail);
      OthersKept(m[e.key := Denote(e.value)], e.tail, k);
    }
  }

  /** So is a document indented with blanks, tabs and line ends. */
  lemma ReadIndentedDocument(before: Rest, entries: Entries, pad: string, rest: Rest)
    requires WellPrinted(Map(entries, false)) && Start("dict") !in before
    requires forall i :: 0 <= i < |pad| ==> pad[i] in {' ', '\t', '\n', '\r'}
    ensures ReadPlist(before + Tokens(Print(Map(entries, false), pad)) + rest) == Some(Denote(Map(entries, false)))
  {
    IndentationIsSpace(pad);
    hide *;
    ReadDocument(before, entries, false, pad, rest);
  }

  // ----- what the reader passes over -----

  /** Comments, directives and instructions count for nothing, wherever they are. */
  lemma OtherIsIgnored(m: map<string, Value>, key: string, a: seq<Value>, rest: Rest, inner: nat)
    ensures ReadDict(m, key, [Other] + rest) == ReadDict(m, key, rest)
    ensures ReadArray(a, [Other] + rest) == ReadArray(a, rest)
    ensures ElementText([Other] + rest) == ElementText(rest)
    ensures Skip([Other] + rest, inner) == Skip(rest, inner)
    ensures ReadPlist([Other] + rest) == ReadPlist(rest)
  {
    assert ([Other] + rest)[1..] == rest;
  }

  /** Skipping passes over the tokens and is as deep inside behind them. */
  ghost predicate Neutral(t: Rest) {
    forall rest: Rest, inner: nat :: Skip(t + rest, inner) == Skip(rest, inner)
  }

  lemma NeutralConcat(a: Rest, b: Rest)
    requires Neutral(a) && Neutral(b)
    ensures Neutral(a + b)
  {
    hide Skip;
    forall rest: Rest, inner: nat
      ensures Skip(a + b + rest, inner) == Skip(rest, inner)
    {
      assert a + b + rest == a + (b + rest);
    }
  }

  lemma NeutralText(s: string)
    ensures Neutral([Text(s)])
  {
    forall rest: Rest, inner: nat
      ensures Skip([Text(s)] + rest, inner) == Skip(rest, inner)
    {
      assert ([Text(s)] + rest)[1..] == rest;
    }
  }

  lemma StartSkips(name: string, rest: Rest, inner: nat)
    ensures Skip([Start(name)] + rest, inner) == Skip(rest, inner + 1)
    ensures Skip([End(name)] + rest, inner) == if inner == 0 then Some(rest) else Skip(rest, inner - 1)
  {
    assert ([Start(name)] + rest)[1..] == rest && ([End(name)] + rest)[1..] == rest;
  }

  lemma NeutralElement(name: string, t: Rest)
    requires Neutral(t)
    ensures Neutral([Start(name)] + t + [End(name)])
  {
    hide Skip;
    forall rest: Rest, inner: nat
      ensures Skip([Start(name)] + t + [End(name)] + rest, inner) == Skip(rest, inner)
    {
      assert [Start(name)] + t + [End(name)] + rest == [Start(name)] + (t + ([End(name)] + rest));
      StartSkips(name, t + ([End(name)] + rest), inner);
      assert Skip(t + ([End(name)] + rest), inner + 1) == Skip([End(name)] + rest, inner + 1);
      StartSkips(name, rest, inner + 1);
    }
  }

  lemma NeutralLeaf(name: string, s: string)
    ensures Neutral(Tokens([Open(name), Chars(s), Close(name)])) && Neutral(Tokens([Empty(name)]))
  {
    hide Neutral, Tokens;
    Leaf(name, s);
    NeutralText(s);
    NeutralElement(name, [Text(s)]);
    assert [Start(name)] + [Text(s)] + [End(name)] == [Start(name)] + [Text(s), End(name)];
    Wrapped(name, []);
    NeutralNothing();
    NeutralElement(name, []);
    assert [Start(name)] + [] + [End(name)] == [Start(name), End(name)];
  }

  lemma NeutralNothing()
    ensures Neutral([])
  {
    assert forall rest: Rest :: [] + rest == rest;
  }

  /** The printed pieces inside a value's own tags. */
  function Inside(v: Printed, pad: string): seq<Piece> {
    match v
    case Scalar(_, s) => [Chars(pad + s + pad)]
    case Bool(_) => []
    case Blob(d) => [Chars(pad + Base64.Encode(d) + pad)]
    case Seq(items, selfClosed) => if selfClosed then [] else PrintItems(items, pad)
    case Map(entries, selfClosed) => if selfClosed then [] else PrintEntries(entries, pad)
  }

  lemma PrintAroundInside(v: Printed, pad: string)
    ensures Tokens(Print(v, pad)) == [Start(Tag(v))] + Tokens(Inside(v, pad)) + [End(Tag(v))]
  {
    hide Tokens, PrintItems, PrintEntries;
    Wrapped(Tag(v), Inside(v, pad));
    NoTokens();
    assert [Start(Tag(v))] + [] + [End(Tag(v))] == [Start(Tag(v)), End(Tag(v))];
    if v.Scalar? || v.Blob? {
      assert Print(v, pad) == [Open(Tag(v))] + Inside(v, pad) + [Close(Tag(v))];
    }
  }

  lemma NoTokens()
    ensures Tokens([]) == []
  {}

  lemma {:induction false} InsideNeutral(v: Printed, pad: string)
    ensures Neutral(Tokens(Inside(v, pad)))
    decreases v, 1
  {
    hide Neutral, Tokens, Print;
    match v
    case Scalar(_, s) => PadTokens(pad + s + pad); NeutralText(pad + s + pad);
    case Blob(d) => PadTokens(pad + Base64.Encode(d) + pad); NeutralText(pad + Base64.Encode(d) + pad);
    case Bool(_) => NoTokens(); NeutralNothing();
    case Seq(items, selfClosed) =>
      NoTokens();
      NeutralNothing();
      ItemsNeutral(items, pad);
    case Map(entries, selfClosed) =>
      NoTokens();
      NeutralNothing();
      EntriesNeutral(entries, pad);
  }

  lemma {:induction false} ItemsNeutral(a: Items, pad: string)
    ensures Neutral(Tokens(PrintItems(a, pad)))
    decreases a, 0
  {
    hide Neutral, Tokens, Print;
    PadTokens(pad);
    NeutralText(pad);
    if a.Item? {
      ValueNeutral(a.head, pad);
      ItemsNeutral(a.tail, pad);
      TokensConcat([Chars(pad)] + Print(a.head, pad), PrintItems(a.tail, pad));
      TokensConcat([Chars(pad)], Print(a.head, pad));
      NeutralConcat(Tokens([Chars(pad)]), Tokens(Print(a.head, pad)));
      NeutralConcat(Tokens([Chars(pad)]) + Tokens(Print(a.head, pad)), Tokens(PrintItems(a.tail, pad)));
    }
  }

  lemma {:induction false} EntriesNeutral(e: Entries, pad: string)
    ensures Neutral(Tokens(PrintEntries(e, pad)))
    decreases e, 0
  {
    hide Neutral, Tokens, Print, PrintKey;
    PadTokens(pad);
    NeutralText(pad);
    if e.Entry? {
      KeyNeutral(e.key, pad);
      ValueNeutral(e.value, pad);
      EntriesNeutral(e.tail, pad);
      TokensConcat(PrintKey(e.key, pad) + Print(e.value, pad), PrintEntries(e.tail, pad));
      TokensConcat(PrintKey(e.key, pad), Print(e.value, pad));
      NeutralConcat(Tokens(PrintKey(e.key, pad)), Tokens(Print(e.value, pad)));
      NeutralConcat(Tokens(PrintKey(e.key, pad)) + Tokens(Print(e.value, pad)), Tokens(PrintEntries(e.tail, pad)));
    }
  }

  lemma KeyNeutral(k: string, pad: string)
    ensures Neutral(Tokens(PrintKey(k, pad)))
  {
    hide Neutral, Tokens;
    var key := [Open("key"), Chars(k), Close("key")];
    assert PrintKey(k, pad) == [Chars(pad)] + key + [Chars(pad)];
    TokensConcat([Chars(pad)] + key, [Chars(pad)]);
    TokensConcat([Chars(pad)], key);
    PadTokens(pad);
    NeutralText(pad);
    NeutralLeaf("key", k);
    NeutralConcat(Tokens([Chars(pad)]), Tokens(key));
    NeutralConcat(Tokens([Chars(pad)]) + Tokens(key), Tokens([Chars(pad)]));
  }

  lemma {:induction false} ValueNeutral(v: Printed, pad: string)
    ensures Neutral(Tokens(Print(v, pad)))
    decreases v, 2
  {
    hide Neutral, Tokens, Print, Inside;
    InsideNeutral(v, pad);
    PrintAroundInside(v, pad);
    NeutralElement(Tag(v), Tokens(Inside(v, pad)));
  }

  /** A boolean is read off its tag, whatever the element holds. */
  lemma FlagIgnoresContent(b: bool, v: Printed, pad: string, rest: Rest)
    ensures var name := if b then "true" else "false";
      ReadValue(name, Tokens(Print(v, pad)) + ([End(name)] + rest)) == Some((Flag(b), rest))
  {
    hide Skip, Tokens, Print, Neutral;
    ValueNeutral(v, pad);
    ElementSkipped(Tokens(Print(v, pad)), if b then "true" else "false", rest);
  }

  /** Data that is not padded base64 is an error, and so is a document without a dict. */
  lemma BadDataFails(s: string, name: string, rest: Rest)
    requires !Base64.Padded(Squeeze(s))
    ensures ReadValue("data", [Text(s), End(name)] + rest) == None
  {
    TextThenEnd(s, name, rest);
    Base64.AcceptsExactlyPadded(Squeeze(s));
    hide ElementText, Squeeze, Base64.Decode, Base64.Padded;
  }

  lemma {:induction false} NoDictNoPlist(toks: Rest)
    requires Start("dict") !in toks
    ensures ReadPlist(toks) == None
    decreases |toks|
  {
    if toks != [] { NoDictNoPlist(toks[1..]); }
  }

  /** The text of an element is its own text only: a nested element, whatever it holds, is left out. */
  lemma NestedIsLeftOut(a: string, v: Printed, b: string, name: string, pad: string, rest: Rest)
    ensures ElementText([Text(a)] + (Tokens(Print(v, pad)) + ([Text(b), End(name)] + rest))) == Some((a + b, rest))
  {
    hide Skip, Tokens, Print, Inside, Neutral;
    var after := [Text(b), End(name)] + rest;
    var inside := Tokens(Inside(v, pad));
    InsideNeutral(v, pad);
    PrintAroundInside(v, pad);
    ElementSkipped(inside, Tag(v), after);
    TextThenEnd(b, name, rest);
    var toks := Tokens(Print(v, pad)) + after;
    assert toks == [Start(Tag(v))] + (inside + ([End(Tag(v))] + after));
    assert toks[1..] == inside + ([End(Tag(v))] + after);
    assert ([Text(a)] + toks)[1..] == toks;
  }

  lemma ElementSkipped(t: Rest, name: string, rest: Rest)
    requires Neutral(t)
    ensures Skip(t + ([End(name)] + rest), 0) == Some(rest)
  {
    hide Skip;
    assert Skip(t + ([End(name)] + rest), 0) == Skip([End(name)] + rest, 0);
    StartSkips(name, rest, 0);
  }

  // ----- the reader itself -----

  /** The token decoder, consumed from the front. */
  class Decoder {
    var unread: Rest

    constructor (toks: Rest)
      ensures unread == toks
    {
      unread := toks;
    }

    method Next() returns (t: Option<Token>)
      modifies this
      ensures if old(unread) == [] then t == None && unread == []
              else t == Some(old(unread)[0]) && unread == old(unread)[1..]
    {
      if unread == [] {
        return None;
      }
      t := Some(unread[0]);
      unread := unread[1..];
    }

    method SkipElement() returns (ok: bool)
      modifies this
      ensures match Skip(old(unread), 0) case None => !ok case Some(rest) => ok && unread == rest
      ensures |unread| <= |old(unread)|
    {
      var inner := 0;
      while true
        invariant Skip(old(unread), 0) == Skip(unread, inner) && |unread| <= |old(unread)|
        decreases |unread|
      {
        var t := Next();
        match t
        case None => return false;
        case Some(Start(_)) => inner := inner + 1;
        case Some(End(_)) =>
          if inner == 0 {
            return true;
          }
          inner := inner - 1;
        case Some(_) =>
      }
    }

    method DecodeElement() returns (r: Option<string>)
      modifies this
      ensures match ElementText(old(unread))
        case None => r == None
        case Some(t) => r == Some(t.0) && unread == t.1
    {
      var s := "";
      assert forall x: string :: "" + x == x;
      while true
        invariant match ElementText(unread)
          case None => ElementText(old(unread)) == None
          case Some(t) => ElementText(old(unread)) == Some((s + t.0, t.1))
        decreases |unread|
      {
        var t := Next();
        match t
        case None => return None;
        case Some(Text(more)) =>
          assert forall x: string :: s + (more + x) == s + more + x;
          s := s + more;
        case Some(Start(_)) =>
          var ok := SkipElement();
          if !ok {
            return None;
          }
        case Some(End(_)) =>
          assert s + "" == s;
          return Some(s);
        case Some(Other) =>
      }
    }
  }

  method PlistValue(d: Decoder, name: string) returns (r: Option<Value>)
    modifies d
    ensures match ReadValue(name, old(d.unread))
      case None => r == None
      case Some(v) => r == Some(v.0) && d.unread == v.1
    decreases |d.unread|, 1
  {
    if name == "dict" {
      r := DictLoop(d);
    } else if name == "array" {
      r := ArrayLoop(d);
    } else if name == "true" || name == "false" {
      var ok := d.SkipElement();
      return if ok then Some(Flag(name == "true")) else None;
    } else {
      var s := d.DecodeElement();
      if s == None {
        return None;
      }
      if name == "data" {
        var b := Base64.Decode(Squeeze(s.value));
        return if b.Some? then Some(Data(b.value)) else None;
      }
      return Some(Str(Trim(s.value)));
    }
  }

  method DictLoop(d: Decoder) returns (r: Option<Value>)
    modifies d
    ensures match ReadDict(map[], "", old(d.unread))
      case None => r == None
      case Some(v) => r == Some(v.0) && d.unread == v.1
    decreases |d.unread|, 0
  {
    var m: map<string, Value>, key := map[], "";
    while true
      invariant ReadDict(map[], "", old(d.unread)) == ReadDict(m, key, d.unread)
      invariant |d.unread| <= |old(d.unread)|
      decreases |d.unread|
    {
      var t := d.Next();
      match t
      case None => return None;
      case Some(Start(name)) =>
        if name == "key" {
          var k := d.DecodeElement();
          if k == None {
            return None;
          }
          key := k.value;
        } else {
          var v := PlistValue(d, name);
          if v == None {
            return None;
          }
          m := m[key := v.value];
        }
      case Some(End(_)) => return Some(Dict(m));
      case Some(_) =>
    }
  }

  method ArrayLoop(d: Decoder) returns (r: Option<Value>)
    modifies d
    ensures match ReadArray([], old(d.unread))
      case None => r == None
      case Some(v) => r == Some(v.0) && d.unread == v.1
    decreases |d.unread|, 0
  {
    var a: seq<Value> := [];
    while true
      invariant ReadArray([], old(d.unread)) == ReadArray(a, d.unread)
      invariant |d.unread| <= |old(d.unread)|
      decreases |d.unread|
    {
      var t := d.Next();
      match t
      case None => return None;
      case Some(Start(name)) =>
        var v := PlistValue(d, name);
        if v == None {
          return None;
        }
        a := a + [v.value];
      case Some(End(_)) => return Some(List(a));
      case Some(_) =>
    }
  }

  method PlistDict(toks: Rest) returns (r: Option<Value>)
    ensures r == ReadPlist(toks)
  {
    var d := new Decoder(toks);
    while true
      invariant ReadPlist(toks) == ReadPlist(d.unread)
      decreases |d.unread|
    {
      var t := d.Next();
      if t == None {
        return None;
      }
      if t == Some(Start("dict")) {
        r := PlistValue(d, "dict");
        return;
      }
    }
  }
}
