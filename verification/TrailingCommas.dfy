/** Removing trailing commas from JSON text (internal/protocol/codec.go). Bytes at or
    above 0x80 only occur inside strings and are never looked at. */
module TrailingCommas {
  import opened Bytes

  // What is removed ----------------------------------------------------------

  /** Space, tab, line feed and carriage return (RFC 8259 section 2). */
  predicate Blank(s: seq<byte>) {
    forall i | 0 <= i < |s| :: s[i] == 0x20 || s[i] == 0x09 || s[i] == 0x0A || s[i] == 0x0D
  }

  datatype Mode = Outside | InString | Escaped

  /** Strings begin and end with a quotation mark; a reverse solidus in one escapes the
      byte after it (RFC 8259 section 7). */
  function NextMode(mode: Mode, current: byte): Mode {
    match mode
    case Outside => if current == 0x22 then InString else Outside
    case InString => if current == 0x5C then Escaped else if current == 0x22 then Outside else InString
    case Escaped => InString
  }

  /** The mode just before position n. */
  function ModeAt(data: seq<byte>, n: nat): Mode
    requires n <= |data|
  {
    if n == 0 then Outside else NextMode(ModeAt(data, n - 1), data[n - 1])
  }

  /** From start on, the first byte that is not white space is a closing brace or bracket,
      at j. */
  predicate CloserAt(data: seq<byte>, start: nat, j: nat) {
    start <= j < |data| && (data[j] == 0x7D || data[j] == 0x5D) && Blank(data[start..j])
  }

  ghost predicate ClosesFrom(data: seq<byte>, start: nat) {
    exists j :: CloserAt(data, start, j)
  }

  /** A comma outside strings whose next byte, white space aside, is a closer. */
  ghost predicate Trailing(data: seq<byte>, i: nat)
    requires i < |data|
  {
    ModeAt(data, i) == Outside && data[i] == 0x2C && ClosesFrom(data, i + 1)
  }

  /** The first n bytes without their trailing commas, everything else in order. */
  ghost function Kept(data: seq<byte>, n: nat): seq<byte>
    requires n <= |data|
  {
    if n == 0 then [] else Kept(data, n - 1) + if Trailing(data, n - 1) then [] else [data[n - 1]]
  }

  // The scanner ---------------------------------------------------------------

  const QUOTE: byte := 0x22
  const COMMA: byte := 0x2C
  const BACKSLASH: byte := 0x5C
  const CLOSE_BRACKET: byte := 0x5D
  const CLOSE_BRACE: byte := 0x7D

  predicate IsJSONWhitespace(value: byte) {
    value == 0x20 || value == 0x09 || value == 0x0D || value == 0x0A
  }

  predicate IsCloser(value: byte) {
    value == CLOSE_BRACE || value == CLOSE_BRACKET
  }

  /** The loop deletes exactly the trailing commas, on any input whatever. */
  method RemoveTrailingCommas(data: seq<byte>) returns (result: seq<byte>)
    ensures result == Kept(data, |data|)
  {
    result := [];
    var inString, escaped := false, false;
    for index := 0 to |data|
      invariant result == Kept(data, index)
      invariant ModeAt(data, index) == if escaped then Escaped else if inString then InString else Outside
      invariant escaped ==> inString
    {
      var current := data[index];
      if inString {
        result := result + [current];
        if escaped {
          escaped := false;
        } else if current == BACKSLASH {
          escaped := true;
        } else if current == QUOTE {
          inString := false;
        }
        continue;
      }
      if current == QUOTE {
        inString := true;
        result := result + [current];
        continue;
      }
      if current != COMMA {
        result := result + [current];
        continue;
      }
      var next := index + 1;
      while next < |data| && IsJSONWhitespace(data[next])
        invariant index < next <= |data| && forall k | index < k < next :: IsJSONWhitespace(data[k])
      {
        next := next + 1;
      }
      FirstNonBlank(data, index, next);
      if next < |data| && IsCloser(data[next]) {
        continue;
      }
      result := result + [current];
    }
  }

  /** Only the first byte that is not white space can be the closer of a trailing comma. */
  lemma FirstNonBlank(data: seq<byte>, i: nat, next: nat)
    requires i < next <= |data| && forall k | i < k < next :: IsJSONWhitespace(data[k])
    requires next < |data| ==> !IsJSONWhitespace(data[next])
    ensures ClosesFrom(data, i + 1) <==> next < |data| && IsCloser(data[next])
  {
    if next < |data| && IsCloser(data[next]) {
      assert CloserAt(data, i + 1, next);
    }
  }

  // The same scan from the front, for compositional proofs ----------------------

  predicate Closes(t: seq<byte>) {
    t != [] && (IsCloser(t[0]) || (IsJSONWhitespace(t[0]) && Closes(t[1..])))
  }

  function Scan(s: seq<byte>, mode: Mode): seq<byte> {
    if s == [] then []
    else if mode == Outside && s[0] == COMMA && Closes(s[1..]) then Scan(s[1..], Outside)
    else [s[0]] + Scan(s[1..], NextMode(mode, s[0]))
  }

  lemma {:induction false} ClosesIff(data: seq<byte>, i: nat)
    requires i <= |data|
    ensures Closes(data[i..]) <==> ClosesFrom(data, i)
    decreases |data| - i
  {
    if i < |data| {
      var next := i + 1;
      ClosesIff(data, next);
      assert data[i..][1..] == data[next..];
      if IsCloser(data[i]) {
        assert CloserAt(data, i, i);
      } else if j :| CloserAt(data, next, j) && IsJSONWhitespace(data[i]) {
        assert CloserAt(data, i, j);
      }
      if j :| CloserAt(data, i, j) && j != i {
        assert CloserAt(data, next, j);
      }
    }
  }

  lemma TrailingIff(data: seq<byte>, i: nat)
    requires i < |data|
    ensures Trailing(data, i) <==> ModeAt(data, i) == Outside && data[i] == COMMA && Closes(data[i + 1..])
  {
    ClosesIff(data, i + 1);
  }

  /** What the byte at n leaves behind. */
  function Left(data: seq<byte>, n: nat): seq<byte>
    requires n < |data|
  {
    if ModeAt(data, n) == Outside && data[n] == COMMA && Closes(data[n + 1..]) then [] else [data[n]]
  }

  lemma ScanStep(data: seq<byte>, n: nat)
    requires n < |data|
    ensures Scan(data[n..], ModeAt(data, n)) == Left(data, n) + Scan(data[n + 1..], ModeAt(data, n + 1))
  {
    assert data[n..][1..] == data[n + 1..];
    assert [] + Scan(data[n + 1..], Outside) == Scan(data[n + 1..], Outside);
  }

  lemma KeptStep(data: seq<byte>, n: nat)
    requires n < |data|
    ensures Kept(data, n + 1) == Kept(data, n) + Left(data, n)
  {
    TrailingIff(data, n);
  }

  lemma {:induction false} KeptThenScan(data: seq<byte>, n: nat)
    requires n <= |data|
    ensures Kept(data, n) + Scan(data[n..], ModeAt(data, n)) == Scan(data, Outside)
  {
    if n == 0 {
      assert data[0..] == data;
    } else {
      KeptThenScan(data, n - 1);
      KeptStep(data, n - 1);
      ScanStep(data, n - 1);
      Assoc(Kept(data, n - 1), Left(data, n - 1), Scan(data[n..], ModeAt(data, n)));
    }
  }

  lemma KeptIsScan(data: seq<byte>)
    ensures Kept(data, |data|) == Scan(data, Outside)
  {
    KeptThenScan(data, |data|);
    assert data[|data|..] == [];
  }

  // JSON texts -----------------------------------------------------------------

  /** A JSON value with its layout: numbers and literals by their text, strings by the
      bytes between the quotes, arrays and objects with the white space around every
      token (RFC 8259 sections 2 to 7), and whether a comma trails the last item. The
      grammar is written in byte values and shares nothing with the scanner. */
  datatype Json =
    | Scalar(text: seq<byte>)
    | Text(body: seq<byte>)
    | Compound(object_: bool, items: Items, comma: bool, tail: seq<byte>)

  datatype Items = Nil | Cons(item: Item, rest: Items)

  datatype Item = Item(before: seq<byte>, key: Option<Key>, value: Json, after: seq<byte>)

  datatype Key = Key(body: seq<byte>, gap: seq<byte>, lead: seq<byte>)

  function Quoted(body: seq<byte>): seq<byte> {
    [0x22] + body + [0x22]
  }

  /** The text of a value: lax keeps the trailing commas, strict leaves them out. */
  function Print(v: Json, lax: bool): seq<byte> {
    match v
    case Scalar(text) => text
    case Text(body) => Quoted(body)
    case Compound(object_, items, comma, tail) =>
      [if object_ then 0x7B else 0x5B]
      + (PrintItems(items, lax)
         + ((if lax && comma then [0x2C] else []) + (tail + [if object_ then 0x7D else 0x5D])))
  }

  function PrintItems(items: Items, lax: bool): seq<byte> {
    match items
    case Nil => []
    case Cons(item, Nil) => PrintItem(item, lax)
    case Cons(item, rest) => PrintItem(item, lax) + ([0x2C] + PrintItems(rest, lax))
  }

  function PrintItem(item: Item, lax: bool): seq<byte> {
    item.before + (PrintKey(item.key) + (Print(item.value, lax) + item.after))
  }

  function PrintKey(key: Option<Key>): seq<byte> {
    match key
    case None => []
    case Some(k) => Quoted(k.body) + (k.gap + ([0x3A] + k.lead))
  }

  /** Every backslash escapes the byte after it and no other quote occurs. */
  predicate StringBody(body: seq<byte>, escaped: bool) {
    if body == [] then !escaped
    else if escaped then StringBody(body[1..], false)
    else body[0] != 0x22 && StringBody(body[1..], body[0] == 0x5C)
  }

  /** Numbers and literals contain no structural character, quote or white space. */
  predicate ScalarText(text: seq<byte>) {
    text != [] && forall i | 0 <= i < |text| ::
      text[i] !in [0x22, 0x2C, 0x3A, 0x5B, 0x5D, 0x7B, 0x7D, 0x20, 0x09, 0x0A, 0x0D]
  }

  predicate WellFormed(v: Json) {
    match v
    case Scalar(text) => ScalarText(text)
    case Text(body) => StringBody(body, false)
    case Compound(object_, items, comma, tail) =>
      WellFormedItems(items, object_) && Blank(tail) && (comma ==> items.Cons?)
  }

  predicate WellFormedItems(items: Items, object_: bool) {
    match items
    case Nil => true
    case Cons(item, rest) =>
      && Blank(item.before) && Blank(item.after)
      && (object_ <==> item.key.Some?)
      && (item.key.Some? ==>
            StringBody(item.key.value.body, false) && Blank(item.key.value.gap) && Blank(item.key.value.lead))
      && WellFormed(item.value)
      && WellFormedItems(rest, object_)
  }

  // Meaning is preserved ---------------------------------------------------------

  predicate Plain(s: seq<byte>) {
    forall i | 0 <= i < |s| :: s[i] != QUOTE && s[i] != COMMA
  }

  lemma {:induction false} ScanPlain(s: seq<byte>, rest: seq<byte>)
    requires Plain(s)
    ensures Scan(s + rest, Outside) == s + Scan(rest, Outside)
  {
    if s == [] {
      assert s + rest == rest;
    } else {
      assert (s + rest)[1..] == s[1..] + rest;
      ScanPlain(s[1..], rest);
      Assoc([s[0]], s[1..], Scan(rest, Outside));
      assert s == [s[0]] + s[1..];
    }
  }

  lemma {:induction false} ScanBody(body: seq<byte>, escaped: bool, rest: seq<byte>)
    requires StringBody(body, escaped)
    ensures Scan(body + ([QUOTE] + rest), if escaped then Escaped else InString)
            == body + ([QUOTE] + Scan(rest, Outside))
  {
    var s := body + ([QUOTE] + rest);
    if body == [] {
      assert s == [QUOTE] + rest;
    } else {
      assert s[1..] == body[1..] + ([QUOTE] + rest);
      ScanBody(body[1..], !escaped && body[0] == BACKSLASH, rest);
      assert body == [body[0]] + body[1..];
      Assoc([body[0]], body[1..], [QUOTE] + Scan(rest, Outside));
    }
  }

  lemma ScanQuoted(body: seq<byte>, rest: seq<byte>)
    requires StringBody(body, false)
    ensures Scan(Quoted(body) + rest, Outside) == Quoted(body) + Scan(rest, Outside)
  {
    assert Quoted(body) + rest == [QUOTE] + (body + ([QUOTE] + rest));
    ScanBody(body, false, rest);
    assert Quoted(body) + Scan(rest, Outside) == [QUOTE] + (body + ([QUOTE] + Scan(rest, Outside)));
  }

  lemma {:induction false} ClosesAfterBlank(s: seq<byte>, t: seq<byte>)
    requires Blank(s)
    ensures Closes(s + t) == Closes(t)
  {
    if s == [] {
      assert s + t == t;
    } else {
      assert (s + t)[1..] == s[1..] + t;
      ClosesAfterBlank(s[1..], t);
    }
  }

  /** A comma between two items is never mistaken for a trailing one. */
  lemma ItemOpens(item: Item, lax: bool, rest: seq<byte>)
    requires Blank(item.before) && WellFormed(item.value)
    ensures !Closes(PrintItem(item, lax) + rest)
  {
    var body := PrintKey(item.key) + (Print(item.value, lax) + item.after);
    Assoc(item.before, body, rest);
    ClosesAfterBlank(item.before, body + rest);
    assert item.key.Some? ==> body[0] == QUOTE;
    assert item.key.None? ==> body == Print(item.value, lax) + item.after;
    assert (body + rest)[0] == body[0];
  }

  lemma ScanComma(t: seq<byte>)
    ensures Scan([COMMA] + t, Outside) == if Closes(t) then Scan(t, Outside) else [COMMA] + Scan(t, Outside)
  {
    assert ([COMMA] + t)[1..] == t;
  }

  lemma ScanKey(key: Option<Key>, rest: seq<byte>)
    requires key.Some? ==> StringBody(key.value.body, false) && Blank(key.value.gap) && Blank(key.value.lead)
    ensures Scan(PrintKey(key) + rest, Outside) == PrintKey(key) + Scan(rest, Outside)
  {
    match key
    case None =>
      assert PrintKey(key) + rest == rest;
    case Some(k) =>
      var plain := k.gap + ([0x3A] + k.lead);
      Assoc(Quoted(k.body), plain, rest);
      ScanQuoted(k.body, plain + rest);
      ScanPlain(plain, rest);
      Assoc(Quoted(k.body), plain, Scan(rest, Outside));
  }

  /** Scanning a printed value, strict or lax, leaves its strict print. */
  lemma {:induction false} ScanValue(v: Json, lax: bool, rest: seq<byte>)
    requires WellFormed(v)
    ensures Scan(Print(v, lax) + rest, Outside) == Print(v, false) + Scan(rest, Outside)
    decreases v, 1
  {
    match v
    case Scalar(text) =>
      ScanPlain(text, rest);
    case Text(body) =>
      ScanQuoted(body, rest);
    case Compound(object_, items, comma, tail) =>
      var open: seq<byte> := [if object_ then 0x7B else 0x5B];
      var closer := if object_ then CLOSE_BRACE else CLOSE_BRACKET;
      var close: seq<byte> := tail + [closer];
      var extra: seq<byte> := if lax && comma then [COMMA] else [];
      Assoc(open, PrintItems(items, lax) + (extra + close), rest);
      Assoc(PrintItems(items, lax), extra + close, rest);
      Assoc(extra, close, rest);
      ScanPlain(open, PrintItems(items, lax) + ((extra + close) + rest));
      ScanItems(items, object_, lax, (extra + close) + rest);
      ScanClose(lax && comma, tail, closer, rest);
      StrictCompound(open, PrintItems(items, false), close, Scan(rest, Outside));
  }

  lemma StrictCompound(open: seq<byte>, items: seq<byte>, close: seq<byte>, rest: seq<byte>)
    ensures open + (items + (close + rest)) == (open + (items + ([] + close))) + rest
  {
  }

  lemma ScanClose(comma: bool, tail: seq<byte>, closer: byte, rest: seq<byte>)
    requires Blank(tail) && IsCloser(closer)
    ensures Scan(((if comma then [COMMA] else []) + (tail + [closer])) + rest, Outside)
            == (tail + [closer]) + Scan(rest, Outside)
  {
    var close := tail + [closer];
    ScanPlain(close, rest);
    if comma {
      Assoc([COMMA], close, rest);
      ScanComma(close + rest);
      Assoc(tail, [closer], rest);
      ClosesAfterBlank(tail, [closer] + rest);
    } else {
      assert [] + close == close;
    }
  }

  lemma {:induction false} ScanItems(items: Items, object_: bool, lax: bool, rest: seq<byte>)
    requires WellFormedItems(items, object_)
    ensures Scan(PrintItems(items, lax) + rest, Outside) == PrintItems(items, false) + Scan(rest, Outside)
    decreases items, 0
  {
    match items
    case Nil =>
      assert PrintItems(items, lax) + rest == rest;
    case Cons(item, Nil) =>
      ScanItem(item, lax, rest);
    case Cons(item, others) =>
      var tail := PrintItems(others, lax) + rest;
      Assoc(PrintItem(item, lax), [COMMA] + PrintItems(others, lax), rest);
      Assoc([COMMA], PrintItems(others, lax), rest);
      ScanItem(item, lax, [COMMA] + tail);
      ScanComma(tail);
      ItemsOpen(others, object_, lax, rest);
      ScanItems(others, object_, lax, rest);
      Assoc([COMMA], PrintItems(others, false), Scan(rest, Outside));
      Assoc(PrintItem(item, false), [COMMA] + PrintItems(others, false), Scan(rest, Outside));
  }

  lemma ItemsOpen(items: Items, object_: bool, lax: bool, rest: seq<byte>)
    requires items.Cons? && WellFormedItems(items, object_)
    ensures !Closes(PrintItems(items, lax) + rest)
  {
    if items.rest.Nil? {
      ItemOpens(items.item, lax, rest);
    } else {
      var more := [COMMA] + PrintItems(items.rest, lax);
      Assoc(PrintItem(items.item, lax), more, rest);
      ItemOpens(items.item, lax, more + rest);
    }
  }

  lemma {:induction false} ScanItem(item: Item, lax: bool, rest: seq<byte>)
    requires Blank(item.before) && Blank(item.after) && WellFormed(item.value)
    requires item.key.Some? ==>
               StringBody(item.key.value.body, false) && Blank(item.key.value.gap) && Blank(item.key.value.lead)
    ensures Scan(PrintItem(item, lax) + rest, Outside) == PrintItem(item, false) + Scan(rest, Outside)
    decreases item, 2
  {
    var text, key := Print(item.value, lax), PrintKey(item.key);
    Assoc(item.before, key + (text + item.after), rest);
    Assoc(key, text + item.after, rest);
    Assoc(text, item.after, rest);
    ScanPlain(item.before, key + (text + (item.after + rest)));
    ScanKey(item.key, text + (item.after + rest));
    ScanValue(item.value, lax, item.after + rest);
    ScanPlain(item.after, rest);
    var strict, end := Print(item.value, false), Scan(rest, Outside);
    Assoc(strict, item.after, end);
    Assoc(key, strict + item.after, end);
    Assoc(item.before, key + (strict + item.after), end);
  }

  /** Removing trailing commas preserves meaning: whatever the layout, the text of a JSON
      value with optional trailing commas becomes the strict text of the same value with
      the same layout, strings and escapes included; strict text is left alone. */
  lemma StripPreservesMeaning(before: seq<byte>, v: Json, after: seq<byte>, lax: bool, text: seq<byte>)
    requires Blank(before) && Blank(after) && WellFormed(v)
    requires text == before + (Print(v, lax) + after)
    ensures Kept(text, |text|) == before + (Print(v, false) + after)
  {
    KeptIsScan(text);
    ScanPlain(before, Print(v, lax) + after);
    ScanValue(v, lax, after);
    ScanPlain(after, []);
    assert after + [] == after;
  }

  lemma PrintOne(v: Json, lax: bool)
    requires v.Compound? && v.items.Cons? && v.items.rest.Nil?
    ensures Print(v, lax) == [if v.object_ then 0x7B else 0x5B]
                             + (PrintItem(v.items.item, lax)
                                + ((if lax && v.comma then [0x2C] else [])
                                   + (v.tail + [if v.object_ then 0x7D else 0x5D])))
  {
  }

  lemma PrintBare(item: Item, lax: bool)
    requires item.before == item.after == [] && item.key.None?
    ensures PrintItem(item, lax) == Print(item.value, lax)
  {
  }

  lemma PrintKeyed(item: Item, lax: bool)
    requires item.before == item.after == [] && item.key.Some?
    requires item.key.value.body == [0x61] && item.key.value.gap == [] && item.key.value.lead == [0x20]
    ensures StringBody(item.key.value.body, false)
    ensures PrintItem(item, lax) == [0x22, 0x61, 0x22, 0x3A, 0x20] + Print(item.value, lax)
  {
    assert item.key.value.body[1..] == [];
    assert PrintKey(item.key) == [0x22, 0x61, 0x22, 0x3A, 0x20];
  }

  lemma OneItemWellFormed(v: Json)
    requires v.Compound? && v.items.Cons? && v.items.rest.Nil? && Blank(v.tail)
    requires v.items.item.before == v.items.item.after == []
    requires v.object_ <==> v.items.item.key.Some?
    requires v.object_ ==>
               var key := v.items.item.key.value; StringBody(key.body, false) && Blank(key.gap) && Blank(key.lead)
    requires WellFormed(v.items.item.value)
    ensures WellFormed(v)
  {
    var none := v.items.rest;
    assert WellFormedItems(none, v.object_);
  }

  /** A text in which a comma trails the item of an array across a line feed, and another
      the array in an object: {"a": [1, ],} is a layout of {"a": [1 ]}. */
  lemma PrettyPrinted(v: Json, a: Json, lax: bool)
    requires v.Compound? && v.object_ && v.comma && v.tail == [] && v.items.Cons? && v.items.rest.Nil?
    requires v.items.item.before == v.items.item.after == [] && v.items.item.key.Some? && v.items.item.value == a
    requires var key := v.items.item.key.value; key.body == [0x61] && key.gap == [] && key.lead == [0x20]
    requires a.Compound? && !a.object_ && a.comma && a.tail == [0x0A] && a.items.Cons? && a.items.rest.Nil?
    requires a.items.item.before == a.items.item.after == [] && a.items.item.key.None?
    requires a.items.item.value.Scalar? && a.items.item.value.text == [0x31]
    ensures WellFormed(v)
    ensures Print(v, lax) == if lax then [0x7B, 0x22, 0x61, 0x22, 0x3A, 0x20, 0x5B, 0x31, 0x2C, 0x0A, 0x5D, 0x2C, 0x7D]
                             else [0x7B, 0x22, 0x61, 0x22, 0x3A, 0x20, 0x5B, 0x31, 0x0A, 0x5D, 0x7D]
  {
    PrintBare(a.items.item, lax);
    PrintOne(a, lax);
    PrintKeyed(v.items.item, lax);
    PrintOne(v, lax);
    OneItemWellFormed(a);
    OneItemWellFormed(v);
  }

  // A second pass -----------------------------------------------------------------

  /** White space, one comma, white space, a closer. */
  predicate CommaThenCloses(t: seq<byte>) {
    t != [] && (if t[0] == COMMA then Closes(t[1..]) else IsJSONWhitespace(t[0]) && CommaThenCloses(t[1..]))
  }

  /** Somewhere outside strings two commas stand before a closer. */
  predicate HasDoubleComma(s: seq<byte>, mode: Mode) {
    s != []
    && ((mode == Outside && s[0] == COMMA && CommaThenCloses(s[1..])) || HasDoubleComma(s[1..], NextMode(mode, s[0])))
  }

  lemma {:induction false} ClosesAfterScan(t: seq<byte>)
    ensures Closes(Scan(t, Outside)) <==> Closes(t) || CommaThenCloses(t)
  {
    if t != [] {
      if IsJSONWhitespace(t[0]) {
        ClosesAfterScan(t[1..]);
        assert Scan(t, Outside)[1..] == Scan(t[1..], Outside);
      } else if t[0] == COMMA && Closes(t[1..]) {
        ClosesAfterScan(t[1..]);
      }
    }
  }

  lemma {:induction false} ScanShrinks(s: seq<byte>, mode: Mode)
    ensures |Scan(s, mode)| <= |s|
  {
    if s != [] {
      ScanShrinks(s[1..], NextMode(mode, s[0]));
    }
  }

  /** A second pass changes nothing exactly when no two commas outside strings stand,
      white space aside, directly before a closer. */
  lemma {:induction false} SecondPassIff(s: seq<byte>, mode: Mode)
    ensures Scan(Scan(s, mode), mode) == Scan(s, mode) <==> !HasDoubleComma(s, mode)
  {
    if s != [] {
      var t, next := s[1..], NextMode(mode, s[0]);
      var once := Scan(t, next);
      SecondPassIff(t, next);
      if mode == Outside && s[0] == COMMA {
        ClosesAfterScan(t);
        ExclusiveClosers(t);
        if !Closes(t) {
          ScanComma(once);
          ScanShrinks(once, Outside);
        }
      } else {
        assert ([s[0]] + once)[1..] == once;
        assert Scan([s[0]] + once, mode) == [s[0]] + Scan(once, next);
      }
    }
  }

  lemma {:induction false} ExclusiveClosers(t: seq<byte>)
    ensures !(Closes(t) && CommaThenCloses(t))
  {
    if t != [] {
      ExclusiveClosers(t[1..]);
    }
  }

  /** The smallest text on which a second pass matters: two commas in an empty array. */
  lemma DoubledCommaNeedsTwoPasses(s: seq<byte>)
    requires s == [0x5B, 0x2C, 0x2C, 0x5D]
    ensures HasDoubleComma(s, Outside) && Scan(Scan(s, Outside), Outside) != Scan(s, Outside)
  {
    assert s[1..] == [COMMA, COMMA, CLOSE_BRACKET];
    assert s[1..][1..] == [COMMA, CLOSE_BRACKET];
    assert s[1..][1..][1..] == [CLOSE_BRACKET];
    SecondPassIff(s, Outside);
  }
}
