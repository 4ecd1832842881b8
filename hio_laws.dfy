/**
 * What the writer and the reader promise together: the reader reads back
 * what the writer wrote, whitespace before a value does not matter, events
 * written one after another are read in order, and malformed texts are
 * rejected with the reader's errors.
 */
module HioLaws {
  import opened Events
  import opened HioWriter
  import opened HioReader

  /** Each hexadecimal digit the writer emits is read back as its value. */
  lemma HexDigitValue(n: int)
    requires 0 <= n < 16
    ensures IsHexDigit(HexDigit(n)) && DigitValue(HexDigit(n)) == n
    ensures !IsSpace(HexDigit(n)) && HexDigit(n) != ' '
  {
    if n < 8 {
      if n < 4 {
        if n == 0 {} else if n == 1 {} else if n == 2 {} else {}
      } else {
        if n == 4 {} else if n == 5 {} else if n == 6 {} else {}
      }
    } else {
      if n < 12 {
        if n == 8 {} else if n == 9 {} else if n == 10 {} else {}
      } else {
        if n == 12 {} else if n == 13 {} else if n == 14 {} else {}
      }
    }
  }

  /** Each decimal digit the writer emits is read back as its value. */
  lemma DecDigitValue(n: int)
    requires 0 <= n < 10
    ensures IsDecDigit(DecDigit(n)) && IsHexDigit(DecDigit(n)) && DigitValue(DecDigit(n)) == n
  {
    if n < 5 {
      if n == 0 {} else if n == 1 {} else if n == 2 {} else if n == 3 {} else {}
    } else {
      if n == 5 {} else if n == 6 {} else if n == 7 {} else if n == 8 {} else {}
    }
  }

  /** A byte's text is read back as that byte. */
  lemma ByteRoundTrip(b: byte)
    ensures ByteOfToken(ByteText(b)) == b
  {
    var h, l := b as int / 16, b as int % 16;
    HexDigitValue(h);
    HexDigitValue(l);
    var tok := ByteText(b);
    var d := [HexDigit(h), HexDigit(l)];
    assert tok == "0x" + d;
    assert SkipWs(tok) == tok;
    assert HexBody(Unsigned(tok)) == d;
    TwoDigits(d, h, l);
  }

  /** Two hexadecimal digits make one run, of value `16 * h + l`. */
  lemma TwoDigits(d: string, h: int, l: int)
    requires 0 <= h < 16 && 0 <= l < 16
    requires d == [HexDigit(h), HexDigit(l)]
    requires IsHexDigit(d[0]) && DigitValue(d[0]) == h && IsHexDigit(d[1]) && DigitValue(d[1]) == l
    ensures DigitsLength(d, true) == 2 && d[..2] == d
    ensures Number(d, true) == h * 16 + l
  {
    assert d[1..][1..] == [];
    assert d[..1] == [HexDigit(h)] && d[..1][..0] == [];
    assert Number(d[..1], true) == h;
  }

  /** Skipping whitespace twice skips nothing more. */
  lemma SkipWsIdempotent(s: string)
    ensures SkipWs(SkipWs(s)) == SkipWs(s)
  {
  }

  /** A leading whitespace character is skipped like any other. */
  lemma SkipOne(c: char, s: string)
    requires IsSpace(c)
    ensures SkipWs([c] + s) == SkipWs(s)
  {
    assert ([c] + s)[1..] == s;
  }

  /** Any run of whitespace in front of `s` is skipped. */
  lemma {:induction false} SkipSpaces(w: string, s: string)
    requires forall k :: 0 <= k < |w| ==> IsSpace(w[k])
    ensures SkipWs(w + s) == SkipWs(s)
  {
    if w != [] {
      assert (w + s)[0] == w[0] && (w + s)[1..] == w[1..] + s;
      SkipSpaces(w[1..], s);
    } else {
      assert w + s == s;
    }
  }

  /** A word stops at the whitespace after it. */
  lemma {:induction false} WordLengthOf(w: string, x: string)
    requires forall k :: 0 <= k < |w| ==> !IsSpace(w[k])
    requires x == [] || IsSpace(x[0])
    ensures WordLength(w + x) == |w|
  {
    if w != [] {
      assert (w + x)[1..] == w[1..] + x;
      WordLengthOf(w[1..], x);
    }
  }

  /** A token stops at the `' '` after it. */
  lemma {:induction false} TokenLengthOf(w: string, x: string)
    requires forall k :: 0 <= k < |w| ==> w[k] != ' '
    requires x == [] || x[0] == ' '
    ensures TokenLength(w + x) == |w|
  {
    if w != [] {
      assert (w + x)[1..] == w[1..] + x;
      TokenLengthOf(w[1..], x);
    }
  }

  /** A run of digits stops at the first non-digit after it. */
  lemma {:induction false} DigitsLengthOf(d: string, x: string, hex: bool)
    requires forall k :: 0 <= k < |d| ==> IsDigitIn(d[k], hex)
    requires x == [] || !IsDigitIn(x[0], hex)
    ensures DigitsLength(d + x, hex) == |d|
  {
    if d != [] {
      assert (d + x)[1..] == d[1..] + x;
      DigitsLengthOf(d[1..], x, hex);
    }
  }

  /** A word followed by whitespace or the end is read as that word. */
  lemma WordOf(w: string, x: string)
    requires w != [] && forall k :: 0 <= k < |w| ==> !IsSpace(w[k])
    requires x == [] || IsSpace(x[0])
    ensures ReadWord(w + x) == Got(w, x)
  {
    WordLengthOf(w, x);
    assert !IsSpace((w + x)[0]);
    assert (w + x)[..|w|] == w && (w + x)[|w|..] == x;
  }

  /** A token followed by `' '` or the end is read as that token, and its delimiter consumed. */
  lemma TokenOf(w: string, x: string)
    requires w != [] && !IsSpace(w[0]) && forall k :: 0 <= k < |w| ==> w[k] != ' '
    requires x == [] || x[0] == ' '
    ensures NextToken(w + x) == Got(w, Delimited(x))
  {
    TokenLengthOf(w, x);
    assert (w + x)[0] == w[0];
    assert (w + x)[..|w|] == w;
    if x != [] {
      assert (w + x)[|w| + 1..] == x[1..];
    }
  }

  /** What follows a `getline` token: its `' '` delimiter, if any, is consumed. */
  function Delimited(x: string): (r: string)
    requires x == [] || x[0] == ' '
    ensures SkipWs(r) == SkipWs(x)
  {
    if x == [] then [] else assert x == [x[0]] + x[1..]; SkipOne(x[0], x[1..]); x[1..]
  }

  /** The decimal digits the writer emits are read back as the number. */
  lemma {:induction false} DecimalRoundTrip(n: nat)
    ensures Number(DecimalText(n), false) == n
  {
    var d := DecimalText(n);
    if n < 10 {
      DecDigitValue(n);
      assert d[..0] == [];
    } else {
      DecimalRoundTrip(n / 10);
      DecDigitValue(n % 10);
      assert d[..|d| - 1] == DecimalText(n / 10);
    }
  }

  /** The value of the digits `m` under the sign of `t`. */
  function SignedValue(t: string, m: nat): int
  {
    if Negative(t) then -(m as int) else m as int
  }

  /**
   * A sign, then the decimal digits of `m`, then anything but a digit: the
   * reader takes the sign and the digits.
   */
  lemma SignedRead(t: string, m: nat, rest: string)
    requires rest == [] || !IsDecDigit(rest[0])
    requires Unsigned(t) == DecimalText(m) + rest && SkipWs(t) == t
    ensures ReadInt32(t) == if InInt32(SignedValue(t, m)) then Got(SignedValue(t, m) as int32, rest) else Miss
  {
    var d := DecimalText(m);
    DigitsLengthOf(d, rest, false);
    DecimalRoundTrip(m);
    assert (d + rest)[..|d|] == d && (d + rest)[|d|..] == rest;
  }

  /** An integer's text, followed by anything but a digit, is read back as that integer. */
  lemma IntRoundTrip(i: int32, rest: string)
    requires rest == [] || !IsDecDigit(rest[0])
    ensures ReadInt32(IntText(i) + rest) == Got(i, rest)
  {
    if i < 0 {
      NegativeRoundTrip(i, rest);
    } else {
      var d := DecimalText(i as int);
      var t := d + rest;
      assert t[0] == d[0];
      SignedRead(t, i as int, rest);
    }
  }

  lemma NegativeRoundTrip(i: int32, rest: string)
    requires i < 0
    requires rest == [] || !IsDecDigit(rest[0])
    ensures ReadInt32(IntText(i) + rest) == Got(i, rest)
  {
    var m: nat := -(i as int);
    var t := NegativeText(m, rest);
    SignedRead(t, m, rest);
    assert SignedValue(t, m) == i as int;
    assert InInt32(SignedValue(t, m));
  }

  /** A negative integer's text: `-`, then the digits of its magnitude. */
  lemma NegativeText(m: nat, rest: string) returns (t: string)
    requires 0 < m <= 0x8000_0000
    ensures t == IntText((-(m as int)) as int32) + rest
    ensures Negative(t) && SkipWs(t) == t && Unsigned(t) == DecimalText(m) + rest
  {
    t := "-" + (DecimalText(m) + rest);
    assert t[1..] == DecimalText(m) + rest;
  }

  /** The body of a quoted string is read back up to its closing `"`. */
  lemma {:induction false} QuotedBodyRoundTrip(s: string, rest: string)
    ensures QuotedBody(Escaped(s) + ("\"" + rest)) == Quoted(s, true, rest)
  {
    if s == [] {
      assert Escaped(s) + ("\"" + rest) == "\"" + rest;
    } else {
      var e := Escaped(s[1..]) + ("\"" + rest);
      QuotedBodyRoundTrip(s[1..], rest);
      EscapedCons(s, "\"" + rest);
      QuotedBodyCons(s[0], e);
      assert [s[0]] + s[1..] == s;
    }
  }

  lemma EscapedCons(s: string, x: string)
    requires s != []
    ensures Escaped(s) + x == EscapedChar(s[0]) + (Escaped(s[1..]) + x)
  {
  }

  /** One escaped character, read back as itself ahead of what follows it. */
  lemma QuotedBodyCons(c: char, e: string)
    ensures QuotedBody(EscapedChar(c) + e) == Quoted([c] + QuotedBody(e).value, QuotedBody(e).ok, QuotedBody(e).rest)
  {
    if c == '"' || c == '\\' {
      assert (['\\', c] + e)[2..] == e;
    } else {
      assert ([c] + e)[1..] == e;
    }
  }

  /** A quoted string is read back as the string, escapes removed. */
  lemma QuotedRoundTrip(s: string, rest: string)
    ensures ReadQuoted(QuotedText(s) + rest) == Quoted(s, true, rest)
  {
    var t := QuotedText(s) + rest;
    assert t == "\"" + (Escaped(s) + ("\"" + rest));
    assert SkipWs(t) == t;
    QuotedBodyRoundTrip(s, rest);
  }

  /** The reads that start by skipping whitespace see only what follows it. */
  lemma ReadsSkipWs(a: string, b: string)
    requires SkipWs(a) == SkipWs(b)
    ensures ReadChar(a) == ReadChar(b) && ReadWord(a) == ReadWord(b) && NextToken(a) == NextToken(b)
  {
  }

  lemma ValuesSkipWs(a: string, b: string)
    requires SkipWs(a) == SkipWs(b)
    ensures ReadInt32(a) == ReadInt32(b)
    ensures ReadQuoted(a) == ReadQuoted(b)
  {
  }

  lemma VectorSkipsWs(a: string, b: string)
    requires SkipWs(a) == SkipWs(b)
    ensures ParseTokens(a) == ParseTokens(b) && ParseVector(a) == ParseVector(b)
  {
    ReadsSkipWs(a, b);
  }

  /** A byte's text has no whitespace, so it makes one token. */
  lemma ByteTextIsToken(b: byte)
    ensures ByteText(b) != [] && !IsSpace(ByteText(b)[0])
    ensures forall k :: 0 <= k < |ByteText(b)| ==> ByteText(b)[k] != ' '
  {
    HexDigitValue(b as int / 16);
    HexDigitValue(b as int % 16);
  }

  lemma HeadTail<T>(v: seq<T>)
    requires v != []
    ensures [v[0]] + v[1..] == v
  {
  }

  /** The first element of a vector's elements, and what follows it. */
  lemma ElemsSplit(v: seq<byte>, tail: string)
    requires v != []
    ensures ElemsText(v) + tail == ByteText(v[0]) + (" " + (ElemsText(v[1..]) + tail))
  {
  }

  /** The elements and the closing `]` are read back, the `]` token's delimiter consumed. */
  lemma {:induction false} TokensRoundTrip(v: seq<byte>, rest: string)
    requires rest == [] || rest[0] == ' '
    ensures ParseTokens(ElemsText(v) + ("]" + rest)) == Ok(v, Delimited(rest))
  {
    if v == [] {
      assert ElemsText(v) + ("]" + rest) == "]" + rest;
      TokenOf("]", rest);
    } else {
      var x := ElemsText(v[1..]) + ("]" + rest);
      ElemsSplit(v, "]" + rest);
      ByteTextIsToken(v[0]);
      TokenOf(ByteText(v[0]), " " + x);
      assert Delimited(" " + x) == x;
      ByteRoundTrip(v[0]);
      TokensRoundTrip(v[1..], rest);
      HeadTail(v);
    }
  }

  /** A vector's text is read back as the vector. */
  lemma VectorRoundTrip(v: seq<byte>, rest: string)
    requires rest == [] || rest[0] == ' '
    ensures ParseVector(VectorText(v) + rest) == Ok(v, Delimited(rest))
  {
    var x := ElemsText(v) + ("]" + rest);
    assert VectorText(v) + rest == "[" + (" " + x);
    assert ReadChar(VectorText(v) + rest) == Got('[', " " + x);
    SkipOne(' ', x);
    VectorSkipsWs(" " + x, x);
    TokensRoundTrip(v, rest);
  }

  /** An argument read starts by skipping whitespace. */
  lemma ArgSkipsWs(tag: char, a: string, b: string)
    requires SkipWs(a) == SkipWs(b)
    ensures ParseArg(tag, a) == ParseArg(tag, b)
  {
    if tag == 'i' || tag == 's' {
      ValuesSkipWs(a, b);
    } else if tag == 'b' {
      VectorSkipsWs(a, b);
    }
  }

  /**
   * An argument's text, followed by `' '` or the end, is read back under
   * its tag. Only a blob, read as tokens, consumes the `' '` after it.
   */
  lemma ArgRoundTrip(a: OscArg, rest: string)
    requires rest == [] || rest[0] == ' '
    ensures ParseArg(TagOf(a), ArgText(a) + rest) == Ok(a, if a.BlobArg? then Delimited(rest) else rest)
  {
    match a
    case IntArg(i) => IntRoundTrip(i, rest);
    case StrArg(q) => QuotedRoundTrip(q, rest);
    case BlobArg(v) => VectorRoundTrip(v, rest);
  }

  /** The first value of an argument list, and what follows it. */
  lemma ValuesSplit(args: seq<OscArg>, rest: string)
    requires args != []
    ensures ValuesText(args) + rest == " " + (ArgText(args[0]) + (ValuesText(args[1..]) + rest))
    ensures TagsText(args) == [TagOf(args[0])] + TagsText(args[1..])
    ensures args[1..] != [] ==> (ValuesText(args[1..]) + rest)[0] == ' '
  {
  }

  /**
   * The tag string and the values are read back as the arguments, from any
   * input that differs from the values' text only in leading whitespace.
   */
  lemma {:induction false} ArgsRoundTrip(args: seq<OscArg>, s: string, rest: string)
    requires rest == [] || rest[0] == ' '
    requires SkipWs(s) == SkipWs(ValuesText(args) + rest)
    ensures ParseArgs(TagsText(args), s).Ok? && ParseArgs(TagsText(args), s).value == args
    ensures SkipWs(ParseArgs(TagsText(args), s).rest) == SkipWs(rest)
  {
    if args == [] {
      assert ValuesText(args) + rest == rest;
    } else {
      var x := ValuesText(args[1..]) + rest;
      var y := ArgText(args[0]) + x;
      ValuesSplit(args, rest);
      SkipOne(' ', y);
      ArgSkipsWs(TagOf(args[0]), s, y);
      ArgRoundTrip(args[0], x);
      var r := if args[0].BlobArg? then Delimited(x) else x;
      ArgsStep(TagsText(args), s);
      ArgsRoundTrip(args[1..], r, rest);
      HeadTail(args);
    }
  }

  /** A non-empty text without whitespace: what `is >> str` reads whole. */
  predicate IsWord(w: string)
  {
    w != [] && forall k :: 0 <= k < |w| ==> !IsSpace(w[k])
  }

  /**
   * The events the reader reads back: the writable ones whose OSC path is
   * one word (the writer writes the path as it is).
   */
  predicate Readable(e: Event)
  {
    Writable(e) && OneWordPath(e)
  }

  predicate OneWordPath(e: Event)
  {
    e.OscEvent? ==> IsWord(e.osc.path)
  }

  /** A word after whitespace, followed by whitespace or the end. */
  lemma WordAfterSpace(w: string, x: string)
    requires IsWord(w)
    requires x == [] || IsSpace(x[0])
    ensures ReadWord(" " + (w + x)) == Got(w, x)
  {
    SkipOne(' ', w + x);
    ReadsSkipWs(" " + (w + x), w + x);
    WordOf(w, x);
  }

  /** The tag string of a non-empty argument list is one word. */
  lemma TagsAreWord(args: seq<OscArg>)
    requires args != []
    ensures IsWord(TagsText(args))
  {
    var t := TagsText(args);
    forall k | 0 <= k < |t|
      ensures !IsSpace(t[k])
    {
      assert t[k] == TagOf(args[k]);
    }
  }

  /** The part of an OSC event's text after `O`, without arguments. */
  lemma OscTextBare(o: Osc, rest: string)
    requires o.arguments == []
    ensures OscText(o)[1..] + rest == " " + (o.path + (" " + ("{}" + rest)))
  {
    var a := "O " + o.path;
    assert OscText(o) == a + " {}";
    assert a[1..] == " " + o.path;
    DropFirst(a, " {}");
    assert " {}" + rest == " " + ("{}" + rest);
    Assoc(" ", o.path, " {}");
    Assoc(" " + o.path, " {}", rest);
    Assoc(" ", o.path, " {}" + rest);
  }

  /** The part of an OSC event's text after `O`, with arguments. */
  lemma OscTextTagged(o: Osc, rest: string)
    requires o.arguments != []
    ensures OscText(o)[1..] + rest == " " + (o.path + (" " + ("{" + (" " +
        (TagsText(o.arguments) + (ValuesText(o.arguments) + (" }" + rest)))))))
  {
    var a := "O " + o.path;
    var t, v := TagsText(o.arguments), ValuesText(o.arguments);
    var c := " { " + t + v + " }";
    assert OscText(o) == a + c;
    assert a[1..] == " " + o.path;
    DropFirst(a, c);
    OpenBrace(t, v, rest);
    Assoc(" " + o.path, c, rest);
    Assoc(" ", o.path, c + rest);
  }

  /** Dropping the first character of a non-empty prefix. */
  lemma DropFirst(a: string, x: string)
    requires a != []
    ensures (a + x)[1..] == a[1..] + x
  {
  }

  /** The braces around the tags and values, regrouped from the right. */
  lemma OpenBrace(t: string, v: string, rest: string)
    ensures (" { " + t + v + " }") + rest == " " + ("{" + (" " + (t + (v + (" }" + rest)))))
  {
    assert " { " == " " + ("{" + " ");
  }

  /** A non-empty list of values starts with a space. */
  lemma ValuesStartWithSpace(args: seq<OscArg>, x: string)
    requires args != []
    ensures (ValuesText(args) + x)[0] == ' '
  {
  }

  /** The closing `}` after the values, whitespace before it skipped. */
  lemma CloseRoundTrip(path: string, args: seq<OscArg>, r: string, rest: string)
    requires SkipWs(r) == SkipWs(" }" + rest)
    ensures CloseOsc(path, args, r) == Ok(Osc(path, args), rest)
  {
    SkipOne(' ', "}" + rest);
    ReadsSkipWs(r, "}" + rest);
  }

  /** After the path: the word `{`, the tags, the values and the closing `}`. */
  lemma TaggedRoundTrip(path: string, args: seq<OscArg>, rest: string)
    requires args != []
    ensures OscTagged(path, " " + (TagsText(args) + (ValuesText(args) + (" }" + rest)))) == Ok(Osc(path, args), rest)
  {
    var v := ValuesText(args) + (" }" + rest);
    TagsAreWord(args);
    ValuesStartWithSpace(args, " }" + rest);
    WordAfterSpace(TagsText(args), v);
    ArgsRoundTrip(args, v, " }" + rest);
    CloseRoundTrip(path, args, ParseArgs(TagsText(args), v).rest, rest);
  }

  /** An OSC event's text, after its `O`, is read back as the event. */
  lemma OscRoundTrip(o: Osc, rest: string)
    requires IsWord(o.path)
    requires rest == [] || rest[0] == ' '
    ensures ParseOsc(OscText(o)[1..] + rest) == Ok(o, rest)
  {
    if o.arguments == [] {
      OscTextBare(o, rest);
      WordAfterSpace(o.path, " " + ("{}" + rest));
      WordAfterSpace("{}", rest);
    } else {
      OscTextTagged(o, rest);
      var tail := " " + (TagsText(o.arguments) + (ValuesText(o.arguments) + (" }" + rest)));
      WordAfterSpace(o.path, " " + ("{" + tail));
      WordAfterSpace("{", tail);
      TaggedRoundTrip(o.path, o.arguments, rest);
    }
  }

  /** An internal event's text, after its `I`, is read back as the event. */
  lemma InternalRoundTrip(i: Internal, rest: string)
    requires i.Play? || i.Stop?
    ensures ParseInternal(InternalText(i)[1..] + rest) == Ok(i, rest)
  {
    var w := if i.Play? then "play" else "stop";
    var q := QuotedText(i.pattern) + rest;
    InternalTextSplit(i, rest);
    WordAfterSpace(w, " " + q);
    SkipOne(' ', q);
    ValuesSkipWs(" " + q, q);
    QuotedRoundTrip(i.pattern, rest);
  }

  /** The part of an internal event's text after `I`. */
  lemma InternalTextSplit(i: Internal, rest: string)
    requires i.Play? || i.Stop?
    ensures InternalText(i)[1..] + rest ==
      " " + ((if i.Play? then "play" else "stop") + (" " + (QuotedText(i.pattern) + rest)))
  {
    var w := if i.Play? then "play" else "stop";
    var a := "I " + (w + " ");
    assert InternalText(i) == a + QuotedText(i.pattern);
    DropFirst(a, QuotedText(i.pattern));
    assert a[1..] == " " + (w + " ");
    Assoc(a[1..], QuotedText(i.pattern), rest);
  }

  /** A midi event's text, after its `M`, is read back as the event. */
  lemma MidiRoundTrip(m: Midi, rest: string)
    requires rest == [] || rest[0] == ' '
    ensures ParseMidi(MidiText(m)[1..] + rest) == Ok(m, Delimited(rest))
  {
    var x := VectorText(m.datas) + rest;
    assert MidiText(m)[1..] + rest == " " + x;
    SkipOne(' ', x);
    VectorSkipsWs(" " + x, x);
    VectorRoundTrip(m.datas, rest);
  }

  /** What follows an event's text after it is read: a midi event's vector consumes one `' '`. */
  function EventRest(e: Event, rest: string): (r: string)
    requires rest == [] || rest[0] == ' '
    ensures SkipWs(r) == SkipWs(rest)
  {
    if e.MidiEvent? then Delimited(rest) else rest
  }

  /**
   * Every readable event is read back from its text, followed by `' '`
   * or the end.
   */
  lemma EventRoundTrip(e: Event, rest: string)
    requires Readable(e)
    requires rest == [] || rest[0] == ' '
    ensures ParseEvent(EventText(e) + rest) == Ok(e, EventRest(e, rest))
  {
    match e
    case MidiEvent(m) => MidiEventRoundTrip(m, rest);
    case OscEvent(o) => OscEventRoundTrip(o, rest);
    case InternalEvent(i) => InternalEventRoundTrip(i, rest);
  }

  lemma MidiEventRoundTrip(m: Midi, rest: string)
    requires rest == [] || rest[0] == ' '
    ensures ParseEvent(MidiText(m) + rest) == Ok(MidiEvent(m), Delimited(rest))
  {
    KindThenBody(MidiText(m), rest);
    MidiRoundTrip(m, rest);
  }

  lemma OscEventRoundTrip(o: Osc, rest: string)
    requires IsWord(o.path)
    requires rest == [] || rest[0] == ' '
    ensures ParseEvent(OscText(o) + rest) == Ok(OscEvent(o), rest)
  {
    KindThenBody(OscText(o), rest);
    OscRoundTrip(o, rest);
  }

  lemma InternalEventRoundTrip(i: Internal, rest: string)
    requires i.Play? || i.Stop?
    ensures ParseEvent(InternalText(i) + rest) == Ok(InternalEvent(i), rest)
  {
    KindThenBody(InternalText(i), rest);
    InternalRoundTrip(i, rest);
  }

  /** The kind letter of an event's text, and the text after it. */
  lemma KindThenBody(a: string, rest: string)
    requires a != [] && !IsSpace(a[0])
    ensures ReadChar(a + rest) == Got(a[0], a[1..] + rest)
  {
    assert (a + rest)[0] == a[0] && (a + rest)[1..] == a[1..] + rest;
  }

  /** Reading an event starts by skipping whitespace: only what follows it matters. */
  lemma EventSkipsWs(a: string, b: string)
    requires SkipWs(a) == SkipWs(b)
    ensures ParseEvent(a) == ParseEvent(b)
  {
    ReadsSkipWs(a, b);
  }

  /** Any whitespace in front of an event is ignored. */
  lemma LeadingWhitespace(w: string, s: string)
    requires forall k :: 0 <= k < |w| ==> IsSpace(w[k])
    ensures ParseEvent(w + s) == ParseEvent(s)
  {
    SkipSpaces(w, s);
    EventSkipsWs(w + s, s);
  }

  /** Without a kind letter `M`, `O` or `I` after the whitespace, the event is rejected. */
  lemma UnknownKind(s: string)
    requires SkipWs(s) == [] || SkipWs(s)[0] !in "MOI"
    ensures ParseEvent(s) == Fail(InvalidMessageType)
  {
  }

  /** `n` successive event reads from the same input. */
  function ParseEvents(n: nat, s: string): (r: Read<seq<Event>>)
    ensures r.Ok? ==> |r.value| == n
  {
    if n == 0 then Ok([], s)
    else
      match ParseEvent(s)
      case Ok(e, rest) => Prefixed([e], ParseEvents(n - 1, rest))
      case Fail(err) => Fail(err)
  }

  /** Events written one after another, separated by one space. */
  function Joined(es: seq<Event>): string
    requires forall e :: e in es ==> Writable(e)
  {
    if es == [] then []
    else if |es| == 1 then EventText(es[0])
    else EventText(es[0]) + (" " + Joined(es[1..]))
  }

  /** The first event of a joined text, and the rest of the text. */
  lemma JoinedSplit(es: seq<Event>, rest: string)
    requires es != [] && forall e :: e in es ==> Writable(e)
    ensures Joined(es) + rest == EventText(es[0]) + (if |es| == 1 then rest else " " + (Joined(es[1..]) + rest))
    ensures |es| == 1 ==> Joined(es[1..]) + rest == rest
  {
    if |es| == 1 {
      assert es[1..] == [];
    } else {
      Assoc4(EventText(es[0]), " ", Joined(es[1..]), rest);
    }
  }

  lemma Assoc4(a: string, b: string, c: string, d: string)
    ensures (a + (b + c)) + d == a + (b + (c + d))
  {
  }

  /** The first read from an input that starts, after whitespace, with an event's text. */
  lemma ReadFirst(e: Event, x: string, s: string)
    requires Readable(e)
    requires x == [] || x[0] == ' '
    requires SkipWs(s) == SkipWs(EventText(e) + x)
    ensures ParseEvent(s) == Ok(e, EventRest(e, x))
  {
    EventSkipsWs(s, EventText(e) + x);
    EventRoundTrip(e, x);
  }

  /** One read of the sequence, when the first event is known. */
  lemma EventsStep(n: nat, s: string, e: Event, r: string)
    requires n > 0 && ParseEvent(s) == Ok(e, r)
    ensures ParseEvents(n, s) == Prefixed([e], ParseEvents(n - 1, r))
  {
  }

  /**
   * Events written back to back, separated by spaces, are read back in
   * order, from any input that differs from that text only in leading
   * whitespace.
   */
  lemma {:induction false} EventsRoundTrip(es: seq<Event>, s: string, rest: string) returns (r: string)
    requires forall e :: e in es ==> Writable(e) && OneWordPath(e)
    requires rest == [] || rest[0] == ' '
    requires SkipWs(s) == SkipWs(Joined(es) + rest)
    ensures ParseEvents(|es|, s) == Ok(es, r) && SkipWs(r) == SkipWs(rest)
  {
    if es == [] {
      assert Joined(es) + rest == rest;
      r := s;
    } else {
      var r0 := FirstOfJoined(es, s, rest);
      r := EventsRoundTrip(es[1..], r0, rest);
      EventsStep(|es|, s, es[0], r0);
      HeadTail(es);
    }
  }

  /** The first read from a joined text yields its first event, and the rest of the text is left. */
  lemma FirstOfJoined(es: seq<Event>, s: string, rest: string) returns (r0: string)
    requires es != [] && forall e :: e in es ==> Writable(e) && OneWordPath(e)
    requires rest == [] || rest[0] == ' '
    requires SkipWs(s) == SkipWs(Joined(es) + rest)
    ensures forall e :: e in es[1..] ==> Writable(e) && OneWordPath(e)
    ensures ParseEvent(s) == Ok(es[0], r0) && SkipWs(r0) == SkipWs(Joined(es[1..]) + rest)
  {
    assert es[0] in es;
    assert forall e :: e in es[1..] ==> e in es;
    var x := if |es| == 1 then rest else " " + (Joined(es[1..]) + rest);
    JoinedSplit(es, rest);
    ReadFirst(es[0], x, s);
    if |es| > 1 {
      SkipOne(' ', Joined(es[1..]) + rest);
    }
    r0 := EventRest(es[0], x);
  }

  /** The note-on event of the source's tests is read from its text. */
  lemma ReadNoteOn()
    ensures ParseEvent("M [ 0x80 0x67 0x34 ]") == Ok(MidiEvent(Midi([0x80, 0x67, 0x34])), [])
  {
    var e := MidiEvent(Midi([0x80, 0x67, 0x34]));
    NoteOnText();
    EventRoundTrip(e, []);
    assert EventText(e) + [] == EventText(e);
  }

  /** The note-off event of the source's tests is read from its text. */
  lemma ReadNoteOff()
    ensures ParseEvent("M [ 0x90 0x67 0x00 ]") == Ok(MidiEvent(Midi([0x90, 0x67, 0x00])), [])
  {
    var e := MidiEvent(Midi([0x90, 0x67, 0x00]));
    NoteOffText();
    EventRoundTrip(e, []);
    assert EventText(e) + [] == EventText(e);
  }

  /** The OSC event without arguments of the source's tests. */
  lemma ReadOscNoArgs()
    ensures ParseEvent("O /nsm/server/kill {}") == Ok(OscEvent(Osc("/nsm/server/kill", [])), [])
  {
    var e := OscEvent(Osc("/nsm/server/kill", []));
    OscNoArgsText("/nsm/server/kill");
    KillPathIsWord();
    EventRoundTrip(e, []);
    assert EventText(e) + [] == EventText(e);
  }

  lemma KillPathIsWord()
    ensures IsWord("/nsm/server/kill")
  {
  }

  /** The play and stop events of the source's tests. */
  lemma ReadInternal()
    ensures ParseEvent("I play \"loopback\"") == Ok(InternalEvent(Play("loopback")), [])
    ensures ParseEvent("I stop \"loopback\"") == Ok(InternalEvent(Stop("loopback")), [])
  {
    PlayText("loopback");
    StopText("loopback");
    var p, q := InternalEvent(Play("loopback")), InternalEvent(Stop("loopback"));
    EventRoundTrip(p, []);
    EventRoundTrip(q, []);
    assert EventText(p) + [] == EventText(p) && EventText(q) + [] == EventText(q);
  }

  /**
   * The vector reader fails with "invalid vector start character" exactly
   * when the first character after whitespace is not `[`, or there is none.
   */
  lemma VectorStartRejected(s: string)
    ensures ParseVector(s) == Fail(InvalidVectorStart) <==> SkipWs(s) == [] || SkipWs(s)[0] != '['
  {
  }

  /** A token other than `]` does not end the vector: if the tokens after it run out, so does the vector. */
  lemma TokenThenRunOut(w: string, x: string)
    requires w != [] && !IsSpace(w[0]) && forall k :: 0 <= k < |w| ==> w[k] != ' '
    requires w != "]" && (x == [] || x[0] == ' ')
    requires ParseTokens(Delimited(x)) == Fail(ArrayParse)
    ensures ParseTokens(w + x) == Fail(ArrayParse)
  {
    TokenOf(w, x);
  }

  /**
   * A midi vector of three bytes written without the spaces around its
   * brackets is rejected: `]` sticks to the last byte, so no token closes
   * the vector before the input ends.
   */
  lemma UnspacedVectorRejected(x: byte, y: byte, z: byte)
    ensures ParseEvent("M[" + (ByteText(x) + (" " + (ByteText(y) + (" " + (ByteText(z) + "]"))))))
         == Fail(ArrayParse)
  {
    UnspacedTokens(x, y, z);
    UnclosedMidi(ByteText(x) + (" " + (ByteText(y) + (" " + (ByteText(z) + "]")))));
  }

  /** The tokens of such a vector, after its `[`. */
  lemma UnspacedTokens(x: byte, y: byte, z: byte)
    ensures ParseTokens(ByteText(x) + (" " + (ByteText(y) + (" " + (ByteText(z) + "]"))))) == Fail(ArrayParse)
  {
    var last := ByteText(z) + "]";
    ByteTextIsToken(x);
    ByteTextIsToken(y);
    ByteTextIsToken(z);
    assert last == last + [] && last != "]";
    TokenThenRunOut(last, []);
    TokenThenRunOut(ByteText(y), " " + last);
    TokenThenRunOut(ByteText(x), " " + (ByteText(y) + (" " + last)));
  }

  /** A midi event whose tokens run out, written right after its `[`. */
  lemma UnclosedMidi(tokens: string)
    requires ParseTokens(tokens) == Fail(ArrayParse)
    ensures ParseEvent("M[" + tokens) == Fail(ArrayParse)
  {
    KindThenBody("M[" + tokens, []);
    assert ("M[" + tokens)[1..] + [] == "[" + tokens;
    KindThenBody("[" + tokens, []);
    assert ("[" + tokens)[1..] + [] == tokens;
  }

  /** Only `play` and `stop` are read as internal events: `I tick` is rejected. */
  lemma TickRejected()
    ensures ParseEvent("I tick") == Fail(InvalidInternalType)
  {
    KindThenBody("I tick", []);
    assert "I tick"[1..] == " " + ("tick" + []);
    WordAfterSpace("tick", []);
  }

  /** Any type word other than `play` and `stop` is rejected. */
  lemma UnknownInternalRejected(w: string, x: string)
    requires IsWord(w) && w != "play" && w != "stop"
    requires x == [] || IsSpace(x[0])
    ensures ParseEvent("I" + (" " + (w + x))) == Fail(InvalidInternalType)
  {
    KindThenBody("I" + (" " + (w + x)), []);
    assert ("I" + (" " + (w + x)))[1..] + [] == " " + (w + x);
    WordAfterSpace(w, x);
  }

  /** An OSC event whose body fails is rejected with the same error. */
  lemma OscBodyFails(body: string)
    requires ParseOsc(body).Fail?
    ensures ParseEvent("O" + body) == Fail(ParseOsc(body).error)
  {
    KindThenBody("O" + body, []);
    assert ("O" + body)[1..] + [] == body;
  }

  /** The path and the opening `{` of an OSC event with arguments. */
  lemma OscOpening(path: string, tail: string)
    requires IsWord(path)
    requires tail == [] || IsSpace(tail[0])
    ensures ParseOsc(" " + (path + (" " + ("{" + tail)))) == OscTagged(path, tail)
  {
    WordAfterSpace(path, " " + ("{" + tail));
    WordAfterSpace("{", tail);
  }

  /** A tag that is none of `i`, `f`, `s` and `b` is rejected. */
  lemma UnknownTagRejected(path: string, c: char, x: string)
    requires IsWord(path) && !IsSpace(c) && c !in "ifsb"
    requires x == [] || IsSpace(x[0])
    ensures ParseEvent("O" + (" " + (path + (" " + ("{" + (" " + ([c] + x))))))) == Fail(InvalidOscTag)
  {
    OscOpening(path, " " + ([c] + x));
    WordAfterSpace([c], x);
    OscBodyFails(" " + (path + (" " + ("{" + (" " + ([c] + x))))));
  }

  /**
   * An OSC event with arguments whose last value is followed by anything
   * but `}` is rejected.
   */
  lemma MissingCloseRejected(path: string, args: seq<OscArg>, c: char, rest: string)
    requires IsWord(path) && args != [] && c != '}' && !IsSpace(c)
    ensures OscTagged(path, " " + (TagsText(args) + (ValuesText(args) + (" " + ([c] + rest)))))
         == Fail(InvalidOscStop)
  {
    var end := " " + ([c] + rest);
    var v := ValuesText(args) + end;
    TagsAreWord(args);
    ValuesStartWithSpace(args, end);
    WordAfterSpace(TagsText(args), v);
    ArgsRoundTrip(args, v, end);
    var r4 := ParseArgs(TagsText(args), v).rest;
    SkipOne(' ', [c] + rest);
    ReadsSkipWs(r4, [c] + rest);
  }

  /**
   * The writer writes the OSC path as it is, so a path holding a space is
   * not read back: its second word is taken for the opening brace.
   */
  lemma SpacedPathNotReadBack(p1: string, p2: string)
    requires IsWord(p1) && IsWord(p2) && p2 != "{}"
    ensures ParseEvent(OscText(Osc(p1 + " " + p2, []))) == Fail(InvalidOscTag)
  {
    var body := " " + (p1 + (" " + (p2 + (" " + ("{}" + [])))));
    assert OscText(Osc(p1 + " " + p2, [])) == "O" + body;
    WordAfterSpace(p1, " " + (p2 + (" " + ("{}" + []))));
    WordAfterSpace(p2, " " + ("{}" + []));
    WordAfterSpace("{}", []);
    OscBodyFails(body);
  }
}
