/**
 * The human-readable reader. The functions give what reading a text
 * yields: a value and the unread rest of the input, or the error the
 * reader throws. A `Reader` consumes its input stream step by step and
 * is proved to agree with them.
 *
 * Stream states are modelled on the remaining characters: a read that
 * hits the end of the input fails, and once the stream has failed every
 * later read fails too, so a failed stream behaves like an empty one.
 */
module HioReader {
  import opened Events

  /** The characters `std::isspace` accepts in the classic locale. */
  predicate IsSpace(c: char)
  {
    c == ' ' || c == '\t' || c == '\n' || c == '\r' || c == '\U{b}' || c == '\U{c}'
  }

  predicate IsDecDigit(c: char)
  {
    '0' <= c <= '9'
  }

  predicate IsHexDigit(c: char)
  {
    IsDecDigit(c) || 'a' <= c <= 'f' || 'A' <= c <= 'F'
  }

  /** A digit of base 16 when `hex`, of base 10 otherwise. */
  predicate IsDigitIn(c: char, hex: bool)
  {
    if hex then IsHexDigit(c) else IsDecDigit(c)
  }

  /** The value of a hexadecimal (or decimal) digit. */
  function DigitValue(c: char): (v: nat)
    requires IsHexDigit(c)
    ensures v < 16 && (IsDecDigit(c) ==> v < 10)
  {
    if IsDecDigit(c) then c as int - '0' as int
    else if 'a' <= c <= 'f' then c as int - 'a' as int + 10
    else c as int - 'A' as int + 10
  }

  /** `std::ws`: the input after its leading whitespace. */
  function SkipWs(s: string): (r: string)
    ensures |r| <= |s|
    ensures r == [] || !IsSpace(r[0])
  {
    if s != [] && IsSpace(s[0]) then SkipWs(s[1..]) else s
  }

  /** What is skipped is a prefix of whitespace. */
  lemma {:induction false} SkippedAreSpaces(s: string)
    ensures SkipWs(s) == s[|s| - |SkipWs(s)|..]
    ensures forall k :: 0 <= k < |s| - |SkipWs(s)| ==> IsSpace(s[k])
  {
    if s != [] && IsSpace(s[0]) {
      SkippedAreSpaces(s[1..]);
    }
  }

  /** Length of the longest prefix without whitespace. */
  function WordLength(s: string): (n: nat)
    ensures n <= |s|
    ensures n == |s| || IsSpace(s[n])
  {
    if s == [] || IsSpace(s[0]) then 0 else 1 + WordLength(s[1..])
  }

  /** Length of the longest prefix without the `getline` delimiter `' '`. */
  function TokenLength(s: string): (n: nat)
    ensures n <= |s|
    ensures n == |s| || s[n] == ' '
  {
    if s == [] || s[0] == ' ' then 0 else 1 + TokenLength(s[1..])
  }

  /** A word holds no whitespace, and a token no delimiter. */
  lemma {:induction false} SpansAreMaximal(s: string)
    ensures forall k :: 0 <= k < WordLength(s) ==> !IsSpace(s[k])
    ensures forall k :: 0 <= k < TokenLength(s) ==> s[k] != ' '
  {
    if s != [] {
      SpansAreMaximal(s[1..]);
    }
  }

  /** Length of the longest prefix of digits. */
  function DigitsLength(s: string, hex: bool): (n: nat)
    ensures n <= |s|
    ensures forall k :: 0 <= k < n ==> IsDigitIn(s[k], hex)
    ensures n == |s| || !IsDigitIn(s[n], hex)
  {
    if s == [] || !IsDigitIn(s[0], hex) then 0 else 1 + DigitsLength(s[1..], hex)
  }

  /** The value of a digit string, most significant digit first. */
  function Number(d: string, hex: bool): nat
    requires forall k :: 0 <= k < |d| ==> IsDigitIn(d[k], hex)
  {
    if d == [] then 0
    else
      assert IsDigitIn(d[|d| - 1], hex);
      Number(d[..|d| - 1], hex) * (if hex then 16 else 10) + DigitValue(d[|d| - 1])
  }

  /** The outcome of a primitive read: a value and the rest, or a failed stream. */
  datatype Scan<T> = Got(value: T, rest: string) | Miss

  /** `is >> c` for a `char`: whitespace is skipped, then one character is taken. */
  function ReadChar(s: string): (r: Scan<char>)
    ensures r.Got? ==> |r.rest| < |s| && !IsSpace(r.value)
    ensures r.Miss? <==> SkipWs(s) == []
  {
    var t := SkipWs(s);
    if t == [] then Miss else Got(t[0], t[1..])
  }

  /** `is >> str` for a `std::string`: a maximal non-empty run of non-whitespace. */
  function ReadWord(s: string): (r: Scan<string>)
    ensures r.Got? ==> |r.rest| < |s| && r.value != []
    ensures r.Got? ==> r.rest == [] || IsSpace(r.rest[0])
    ensures r.Miss? <==> SkipWs(s) == []
  {
    var t := SkipWs(s);
    if t == [] then Miss else Got(t[..WordLength(t)], t[WordLength(t)..])
  }

  /**
   * `std::quoted` extraction: a value, whether the stream is still good,
   * and the rest. A failed read leaves the value read so far and an
   * exhausted stream.
   */
  datatype Quoted = Quoted(value: string, ok: bool, rest: string)

  /** The characters after an opening `"`: `\` escapes the next one, `"` closes. */
  function QuotedBody(s: string): (r: Quoted)
    ensures |r.rest| <= |s| && (r.ok ==> |r.rest| < |s|)
    ensures !r.ok ==> r.rest == []
    decreases |s|
  {
    if s == [] then Quoted([], false, [])
    else if s[0] == '\\' then
      if |s| == 1 then Quoted([], false, [])
      else var r := QuotedBody(s[2..]); Quoted([s[1]] + r.value, r.ok, r.rest)
    else if s[0] == '"' then Quoted([], true, s[1..])
    else var r := QuotedBody(s[1..]); Quoted([s[0]] + r.value, r.ok, r.rest)
  }

  /** A quoted string, or a plain word when the first character is not `"`. */
  function ReadQuoted(s: string): (r: Quoted)
    ensures |r.rest| <= |s| && (r.ok ==> |r.rest| < |s|)
    ensures !r.ok ==> r.rest == []
  {
    var t := SkipWs(s);
    if t == [] then Quoted([], false, [])
    else if t[0] != '"' then Quoted(t[..WordLength(t)], true, t[WordLength(t)..])
    else QuotedBody(t[1..])
  }

  /** A leading sign. */
  predicate Negative(t: string)
  {
    t != [] && t[0] == '-'
  }

  function Unsigned(t: string): string
  {
    if t != [] && (t[0] == '-' || t[0] == '+') then t[1..] else t
  }

  predicate InInt32(v: int)
  {
    -0x8000_0000 <= v < 0x8000_0000
  }

  /**
   * `is >> std::dec >> i` for an `int32_t`: whitespace, an optional sign,
   * then the longest run of decimal digits. No digit, or a value out of
   * range, fails the stream.
   */
  function ReadInt32(s: string): (r: Scan<int32>)
    ensures r.Got? ==> |r.rest| < |s|
  {
    var t := SkipWs(s);
    var u := Unsigned(t);
    var n := DigitsLength(u, false);
    if n == 0 then Miss
    else
      var m: int := Number(u[..n], false);
      var v: int := if Negative(t) then -m else m;
      if InInt32(v) then Got(v as int32, u[n..]) else Miss
  }

  /** Out-of-range extraction stores the nearest limit of `int`. */
  function Clamp(v: int): (x: int)
    ensures InInt32(x)
    ensures InInt32(v) ==> x == v
  {
    if v < -0x8000_0000 then -0x8000_0000 else if v >= 0x8000_0000 then 0x7fff_ffff else v
  }

  /** A `0x` or `0X` prefix, which a hexadecimal extraction skips. */
  function HexBody(u: string): string
  {
    if |u| >= 2 && u[0] == '0' && (u[1] == 'x' || u[1] == 'X') then u[2..] else u
  }

  /**
   * `is >> std::hex >> x` on a token's own stream, for an `int x`: an
   * optional sign and `0x` prefix, then the longest run of hexadecimal
   * digits. Without a digit the value is 0; out of range, the nearest
   * limit. The reader never checks that stream, so these are the values
   * it goes on with.
   */
  function HexTokenValue(tok: string): (x: int)
    ensures InInt32(x)
  {
    var t := SkipWs(tok);
    var w := HexBody(Unsigned(t));
    var n := DigitsLength(w, true);
    if n == 0 then 0
    else
      var m: int := Number(w[..n], true);
      Clamp(if Negative(t) then -m else m)
  }

  /** `static_cast<std::byte>` of that `int`: its value modulo 256. */
  function ByteOfToken(tok: string): (b: byte)
    ensures b as int == HexTokenValue(tok) % 256
  {
    (HexTokenValue(tok) % 256) as byte
  }

  /** The errors the reader throws, one per message. */
  datatype ReadError =
    | InvalidVectorStart   // "Invalid vector start character"
    | ArrayParse           // "Error while parsing array"
    | InvalidMessageType   // "Invalid message type identifier"
    | OscArguments         // "Error while parsing osc arguments"
    | InvalidOscTag        // "Invalid osc argument type identifier"
    | InvalidOscStop       // "Invalid OSC stop character"
    | InvalidInternalType  // "Invalid internal event type"
    | FloatArgument        // an `f` argument, whose value is not modelled

  /** Reading a value: the value and the unread rest, or an error. */
  datatype Read<T> = Ok(value: T, rest: string) | Fail(error: ReadError)

  /** `v` in front of the elements a read produced. */
  function Prefixed<T>(v: seq<T>, r: Read<seq<T>>): Read<seq<T>>
  {
    match r
    case Ok(w, rest) => Ok(v + w, rest)
    case Fail(e) => Fail(e)
  }

  /**
   * `std::getline(is >> std::ws, token, ' ')`: after whitespace, the
   * characters up to the next `' '`, which is consumed, or up to the end.
   * At the end of the input it fails.
   */
  function NextToken(s: string): (r: Scan<string>)
    ensures r.Got? ==> |r.rest| < |s| && r.value != []
    ensures r.Miss? <==> SkipWs(s) == []
  {
    var t := SkipWs(s);
    if t == [] then Miss
    else
      var n := TokenLength(t);
      Got(t[..n], if n < |t| then t[n + 1..] else [])
  }

  /**
   * The `getline` loop of the vector reader: the token `]` ends the vector,
   * any other token is converted to a byte. The input running out first is
   * an error.
   */
  function ParseTokens(s: string): (r: Read<seq<byte>>)
    ensures r.Ok? ==> |r.rest| < |s|
    ensures r.Fail? ==> r.error == ArrayParse
    decreases |s|
  {
    match NextToken(s)
    case Miss => Fail(ArrayParse)
    case Got(token, rest) =>
      if token == "]" then Ok([], rest)
      else Prefixed([ByteOfToken(token)], ParseTokens(rest))
  }

  /** A byte vector: `[` after whitespace, then the tokens. */
  function ParseVector(s: string): (r: Read<seq<byte>>)
    ensures r.Ok? ==> |r.rest| < |s|
  {
    match ReadChar(s)
    case Got(c, rest) => if c == '[' then ParseTokens(rest) else Fail(InvalidVectorStart)
    case Miss => Fail(InvalidVectorStart)
  }

  /** `operator event::midi`: a byte vector. */
  function ParseMidi(s: string): (r: Read<Midi>)
    ensures r.Ok? ==> |r.rest| < |s|
  {
    match ParseVector(s)
    case Ok(v, rest) => Ok(Midi(v), rest)
    case Fail(e) => Fail(e)
  }

  /** One OSC argument, chosen by its type tag. */
  function ParseArg(tag: char, s: string): (r: Read<OscArg>)
    ensures r.Ok? ==> |r.rest| < |s| && TagOf(r.value) == tag
  {
    if tag == 'i' then
      match ReadInt32(s)
      case Got(i, rest) => Ok(IntArg(i), rest)
      case Miss => Fail(OscArguments)
    else if tag == 'f' then Fail(FloatArgument)
    else if tag == 's' then
      var q := ReadQuoted(s);
      if q.ok then Ok(StrArg(q.value), q.rest) else Fail(OscArguments)
    else if tag == 'b' then
      match ParseVector(s)
      case Ok(v, rest) => Ok(BlobArg(v), rest)
      case Fail(e) => Fail(e)
    else Fail(InvalidOscTag)
  }

  /** The tag loop: one argument per tag, stopping at the first error. */
  function ParseArgs(tags: string, s: string): (r: Read<seq<OscArg>>)
    ensures r.Ok? ==> |r.rest| <= |s| && |r.value| == |tags|
    decreases |tags|
  {
    if tags == [] then Ok([], s)
    else
      match ParseArg(tags[0], s)
      case Ok(a, rest) => Prefixed([a], ParseArgs(tags[1..], rest))
      case Fail(e) => Fail(e)
  }

  /**
   * An OSC event: the path word, then either the word `{}`, or any other
   * word followed by the tagged arguments.
   */
  function ParseOsc(s: string): (r: Read<Osc>)
    ensures r.Ok? ==> |r.rest| < |s|
  {
    match ReadWord(s)
    case Miss => Fail(OscArguments)
    case Got(path, r1) =>
      match ReadWord(r1)
      case Miss => Fail(OscArguments)
      case Got(open, r2) => if open == "{}" then Ok(Osc(path, []), r2) else OscTagged(path, r2)
  }

  /** The tag word, one argument per tag, then the closing `}`. */
  function OscTagged(path: string, s: string): (r: Read<Osc>)
    ensures r.Ok? ==> |r.rest| < |s| && r.value.path == path
  {
    match ReadWord(s)
    case Miss => Fail(OscArguments)
    case Got(tags, r3) =>
      match ParseArgs(tags, r3)
      case Fail(e) => Fail(e)
      case Ok(args, r4) => CloseOsc(path, args, r4)
  }

  /** The closing `}` of an OSC event with arguments. */
  function CloseOsc(path: string, args: seq<OscArg>, s: string): (r: Read<Osc>)
    ensures r.Ok? ==> |r.rest| < |s| && r.value == Osc(path, args)
  {
    match ReadChar(s)
    case Got(c, rest) => if c == '}' then Ok(Osc(path, args), rest) else Fail(InvalidOscStop)
    case Miss => Fail(InvalidOscStop)
  }

  /**
   * An internal event: the word `play` or `stop`, then the quoted pattern
   * name, whose read is not checked.
   */
  function ParseInternal(s: string): (r: Read<Internal>)
    ensures r.Ok? ==> |r.rest| < |s| && (r.value.Play? || r.value.Stop?)
  {
    match ReadWord(s)
    case Got(w, rest) =>
      if w == "play" then Ok(Play(ReadQuoted(rest).value), ReadQuoted(rest).rest)
      else if w == "stop" then Ok(Stop(ReadQuoted(rest).value), ReadQuoted(rest).rest)
      else Fail(InvalidInternalType)
    case Miss => Fail(InvalidInternalType)
  }

  /** Any event: whitespace, then `M`, `O` or `I` selects the kind. */
  function ParseEvent(s: string): (r: Read<Event>)
    ensures r.Ok? ==> |r.rest| < |s|
    ensures r.Ok? && r.value.InternalEvent? ==> r.value.internal.Play? || r.value.internal.Stop?
  {
    match ReadChar(s)
    case Got(c, rest) =>
      if c == 'M' then
        match ParseMidi(rest)
        case Ok(m, r) => Ok(MidiEvent(m), r)
        case Fail(e) => Fail(e)
      else if c == 'O' then
        match ParseOsc(rest)
        case Ok(o, r) => Ok(OscEvent(o), r)
        case Fail(e) => Fail(e)
      else if c == 'I' then
        match ParseInternal(rest)
        case Ok(i, r) => Ok(InternalEvent(i), r)
        case Fail(e) => Fail(e)
      else Fail(InvalidMessageType)
    case Miss => Fail(InvalidMessageType)
  }

  /** What a reader's caller sees: the value, or the exception. */
  datatype Outcome<T> = Success(value: T) | Failure(error: ReadError)

  function OutcomeOf<T>(r: Read<T>): Outcome<T>
  {
    match r
    case Ok(v, _) => Success(v)
    case Fail(e) => Failure(e)
  }

  /**
   * The input left after a read: its rest when it succeeds. A read that
   * throws is modelled as leaving its input alone.
   */
  function After<T>(r: Read<T>, s: string): string
  {
    match r
    case Ok(_, rest) => rest
    case Fail(_) => s
  }

  /** One pass of the tag loop. */
  lemma ArgsStep(tags: string, s: string)
    requires tags != []
    ensures ParseArgs(tags, s) == match ParseArg(tags[0], s)
      case Ok(a, rest) => Prefixed([a], ParseArgs(tags[1..], rest))
      case Fail(e) => Fail(e)
  {
  }

  lemma PrefixedNil<T>(r: Read<seq<T>>)
    ensures Prefixed([], r) == r
  {
    if r.Ok? {
      assert [] + r.value == r.value;
    }
  }

  lemma PrefixedConcat<T>(v: seq<T>, w: seq<T>, r: Read<seq<T>>)
    ensures Prefixed(v, Prefixed(w, r)) == Prefixed(v + w, r)
  {
    if r.Ok? {
      assert v + (w + r.value) == (v + w) + r.value;
    }
  }

  /** The input side of `reader`: every read consumes a prefix of `input`. */
  class Reader {
    var input: string

    constructor(s: string)
      ensures input == s
    {
      input := s;
    }

    /** `operator int32_t`; `Miss` when the stream fails. */
    method TakeInt32() returns (r: Scan<int32>)
      modifies this
      ensures r == ReadInt32(old(input))
      ensures input == if r.Got? then r.rest else old(input)
    {
      r := ReadInt32(input);
      if r.Got? {
        input := r.rest;
      }
    }

    /** `operator std::string`: the value read, and whether the stream is still good. */
    method TakeString() returns (value: string, ok: bool)
      modifies this
      ensures value == ReadQuoted(old(input)).value && ok == ReadQuoted(old(input)).ok
      ensures input == ReadQuoted(old(input)).rest
    {
      var q := ReadQuoted(input);
      value, ok := q.value, q.ok;
      input := q.rest;
    }

    /** `operator std::vector<std::byte>`: the start character, then the `getline` loop. */
    method TakeVector() returns (r: Outcome<seq<byte>>)
      modifies this
      ensures r == OutcomeOf(ParseVector(old(input)))
      ensures input == After(ParseVector(old(input)), old(input))
    {
      var start := ReadChar(input);
      if start.Miss? || start.value != '[' {
        return Failure(InvalidVectorStart);
      }
      var s := start.rest;
      var v: seq<byte> := [];
      assert ParseVector(input) == ParseTokens(s);
      PrefixedNil(ParseTokens(s));
      while true
        invariant ParseVector(old(input)) == Prefixed(v, ParseTokens(s))
        invariant input == old(input)
        decreases |s|
      {
        var token := NextToken(s);
        if token.Miss? {
          return Failure(ArrayParse);
        }
        if token.value == "]" {
          assert v + [] == v;
          input := token.rest;
          return Success(v);
        }
        PrefixedConcat(v, [ByteOfToken(token.value)], ParseTokens(token.rest));
        v := v + [ByteOfToken(token.value)];
        s := token.rest;
      }
    }

    method TakeMidi() returns (r: Outcome<Midi>)
      modifies this
      ensures r == OutcomeOf(ParseMidi(old(input)))
      ensures input == After(ParseMidi(old(input)), old(input))
    {
      var v := TakeVector();
      match v
      case Success(datas) => r := Success(Midi(datas));
      case Failure(e) => r := Failure(e);
    }

    /** One pass of the tag loop's `switch`. */
    method TakeArg(tag: char) returns (r: Outcome<OscArg>)
      modifies this
      ensures r == OutcomeOf(ParseArg(tag, old(input)))
      ensures input == After(ParseArg(tag, old(input)), old(input))
    {
      if tag == 'i' {
        var i := TakeInt32();
        if i.Miss? {
          return Failure(OscArguments);
        }
        return Success(IntArg(i.value));
      } else if tag == 'f' {
        return Failure(FloatArgument);
      } else if tag == 's' {
        var start := input;
        var value, ok := TakeString();
        if !ok {
          input := start;
          return Failure(OscArguments);
        }
        return Success(StrArg(value));
      } else if tag == 'b' {
        var v := TakeVector();
        match v
        case Success(blob) => r := Success(BlobArg(blob));
        case Failure(e) => r := Failure(e);
      } else {
        return Failure(InvalidOscTag);
      }
    }

    /** The tag loop of `operator event::osc`: one argument per tag, in order. */
    method TakeArgs(tags: string) returns (r: Outcome<seq<OscArg>>)
      modifies this
      ensures r == OutcomeOf(ParseArgs(tags, old(input)))
      ensures input == After(ParseArgs(tags, old(input)), old(input))
    {
      var start := input;
      var args: seq<OscArg> := [];
      assert tags[0..] == tags;
      PrefixedNil(ParseArgs(tags, start));
      for i := 0 to |tags|
        invariant ParseArgs(tags, start) == Prefixed(args, ParseArgs(tags[i..], input))
      {
        ghost var here := input;
        var a := TakeArg(tags[i]);
        ArgsStep(tags[i..], here);
        assert tags[i..][0] == tags[i] && tags[i..][1..] == tags[i + 1..];
        if a.Failure? {
          input := start;
          return Failure(a.error);
        }
        PrefixedConcat(args, [a.value], ParseArgs(tags[i + 1..], input));
        args := args + [a.value];
      }
      assert tags[|tags|..] == [] && args + [] == args;
      return Success(args);
    }

    /** `operator event::osc`: the path, then `{}` or the tagged arguments. */
    method TakeOsc() returns (r: Outcome<Osc>)
      modifies this
      ensures r == OutcomeOf(ParseOsc(old(input)))
      ensures input == After(ParseOsc(old(input)), old(input))
    {
      var path := ReadWord(input);
      if path.Miss? {
        return Failure(OscArguments);
      }
      var open := ReadWord(path.rest);
      if open.Miss? {
        return Failure(OscArguments);
      }
      if open.value == "{}" {
        input := open.rest;
        return Success(Osc(path.value, []));
      }
      var start := input;
      input := open.rest;
      r := TakeTagged(path.value);
      if r.Failure? {
        input := start;
      }
    }

    /** The tag word, the tag loop, and the closing `}`. */
    method TakeTagged(path: string) returns (r: Outcome<Osc>)
      modifies this
      ensures r == OutcomeOf(OscTagged(path, old(input)))
      ensures input == After(OscTagged(path, old(input)), old(input))
    {
      var tags := ReadWord(input);
      if tags.Miss? {
        return Failure(OscArguments);
      }
      var start := input;
      input := tags.rest;
      var args := TakeArgs(tags.value);
      if args.Failure? {
        input := start;
        return Failure(args.error);
      }
      var close := ReadChar(input);
      if close.Miss? || close.value != '}' {
        input := start;
        return Failure(InvalidOscStop);
      }
      input := close.rest;
      return Success(Osc(path, args.value));
    }

    /** `operator event::internal::any`: the type word, then the pattern name. */
    method TakeInternal() returns (r: Outcome<Internal>)
      modifies this
      ensures r == OutcomeOf(ParseInternal(old(input)))
      ensures input == After(ParseInternal(old(input)), old(input))
    {
      var kind := ReadWord(input);
      if kind.Got? && (kind.value == "play" || kind.value == "stop") {
        input := kind.rest;
        var name, _ := TakeString();
        if kind.value == "play" {
          return Success(Play(name));
        }
        return Success(Stop(name));
      }
      return Failure(InvalidInternalType);
    }

    /** `operator event::any`: the kind letter, then that kind's reader. */
    method TakeEvent() returns (r: Outcome<Event>)
      modifies this
      ensures r == OutcomeOf(ParseEvent(old(input)))
      ensures input == After(ParseEvent(old(input)), old(input))
    {
      var start := input;
      var kind := ReadChar(input);
      if kind.Miss? {
        return Failure(InvalidMessageType);
      }
      input := kind.rest;
      if kind.value == 'M' {
        var m := TakeMidi();
        match m
        case Success(v) => r := Success(MidiEvent(v));
        case Failure(e) => input := start; r := Failure(e);
      } else if kind.value == 'O' {
        var o := TakeOsc();
        match o
        case Success(v) => r := Success(OscEvent(v));
        case Failure(e) => input := start; r := Failure(e);
      } else if kind.value == 'I' {
        var i := TakeInternal();
        match i
        case Success(v) => r := Success(InternalEvent(v));
        case Failure(e) => input := start; r := Failure(e);
      } else {
        input := start;
        r := Failure(InvalidMessageType);
      }
    }
  }
}
