/**
 * The human-readable writer: the text each core value is serialised to
 * (as functions), and a `Writer` that appends that text to its output
 * stream step by step, as the overloaded call operators do.
 */
module HioWriter {
  import opened Events

  /** Lower-case hexadecimal digit of `0 <= n < 16`. */
  function HexDigit(n: int): char
    requires 0 <= n < 16
  {
    "0123456789abcdef"[n]
  }

  /** Decimal digit of `0 <= n < 10`. */
  function DecDigit(n: int): char
    requires 0 <= n < 10
  {
    "0123456789"[n]
  }

  /**
   * A byte: `0x`, then its value in hexadecimal, zero-padded to two
   * lower-case digits.
   */
  function ByteText(b: byte): (r: string)
    ensures |r| == 4 && r[0] == '0' && r[1] == 'x'
  {
    "0x" + [HexDigit(b as int / 16), HexDigit(b as int % 16)]
  }

  /** The decimal digits of `n`, most significant first, with no leading zero. */
  function DecimalText(n: nat): (r: string)
    ensures 0 < |r| && (r[0] == '0' <==> n == 0)
    ensures forall k :: 0 <= k < |r| ==> '0' <= r[k] <= '9'
  {
    if n < 10 then [DecDigit(n)] else DecimalText(n / 10) + [DecDigit(n % 10)]
  }

  /** A 32-bit integer in decimal, with a leading `-` when negative. */
  function IntText(i: int32): string
  {
    if i < 0 then "-" + DecimalText(-(i as int)) else DecimalText(i as int)
  }

  /** One character inside `std::quoted`: the delimiter `"` and the escape `\` get a `\` in front. */
  function EscapedChar(c: char): (r: string)
    ensures r == [c] || r == ['\\', c]
  {
    if c == '"' || c == '\\' then ['\\', c] else [c]
  }

  /** The body of `std::quoted` with delimiter `"` and escape `\`. */
  function Escaped(s: string): (r: string)
    ensures |r| >= |s|
  {
    if s == [] then [] else EscapedChar(s[0]) + Escaped(s[1..])
  }

  /** A string, quoted with `"` and escaped with `\`. */
  function QuotedText(s: string): (r: string)
    ensures |r| >= |s| + 2 && r[0] == '"' && r[|r| - 1] == '"'
  {
    "\"" + Escaped(s) + "\""
  }

  /** The elements of a byte vector, each followed by one space. */
  function ElemsText(v: seq<byte>): (r: string)
    ensures |r| == 5 * |v|
  {
    if v == [] then [] else ByteText(v[0]) + " " + ElemsText(v[1..])
  }

  /** A vector: `[ `, each element followed by a space, then `]`. */
  function VectorText(v: seq<byte>): (r: string)
    ensures |r| == 5 * |v| + 3 && r[..2] == "[ " && r[|r| - 1] == ']'
  {
    "[ " + ElemsText(v) + "]"
  }

  /** The type tag string: one tag per argument, in order. */
  function TagsText(args: seq<OscArg>): (r: string)
    ensures |r| == |args|
    ensures forall k :: 0 <= k < |args| ==> r[k] == TagOf(args[k])
  {
    if args == [] then [] else [TagOf(args[0])] + TagsText(args[1..])
  }

  /** One OSC argument value. */
  function ArgText(a: OscArg): string
  {
    match a
    case IntArg(i) => IntText(i)
    case StrArg(s) => QuotedText(s)
    case BlobArg(b) => VectorText(b)
  }

  /** The argument values, each preceded by one space. */
  function ValuesText(args: seq<OscArg>): (r: string)
    ensures |r| >= |args|
  {
    if args == [] then [] else " " + ArgText(args[0]) + ValuesText(args[1..])
  }

  /** A midi event: `M `, then its data bytes as a vector. */
  function MidiText(m: Midi): string
  {
    "M " + VectorText(m.datas)
  }

  /**
   * An OSC event: `O `, the raw path, then ` {}` without arguments, or
   * ` { `, the tags, each value after a space, and ` }`.
   */
  function OscText(o: Osc): string
  {
    "O " + o.path +
    (if |o.arguments| == 0 then " {}" else " { " + TagsText(o.arguments) + ValuesText(o.arguments) + " }")
  }

  /**
   * Only play and stop have a writer among the internal events; tick,
   * resume and end have no overload.
   */
  predicate Writable(e: Event)
  {
    !e.InternalEvent? || e.internal.Play? || e.internal.Stop?
  }

  /** An internal event: `I `, its type word and a space, then the quoted pattern name. */
  function InternalText(i: Internal): string
    requires i.Play? || i.Stop?
  {
    "I " + (if i.Play? then "play " else "stop ") + QuotedText(i.pattern)
  }

  /** Any writable event, dispatched on its kind. */
  function EventText(e: Event): (r: string)
    requires Writable(e)
    ensures |r| >= 2
    ensures r[0] == (if e.MidiEvent? then 'M' else if e.OscEvent? then 'O' else 'I') && r[1] == ' '
  {
    match e
    case MidiEvent(m) => MidiText(m)
    case OscEvent(o) => OscText(o)
    case InternalEvent(i) => InternalText(i)
  }

  lemma {:induction false} ElemsAppend(v: seq<byte>, x: byte)
    ensures ElemsText(v + [x]) == ElemsText(v) + ByteText(x) + " "
  {
    if v != [] {
      assert (v + [x])[1..] == v[1..] + [x];
      ElemsAppend(v[1..], x);
    }
  }

  lemma {:induction false} TagsAppend(args: seq<OscArg>, a: OscArg)
    ensures TagsText(args + [a]) == TagsText(args) + [TagOf(a)]
  {
    if args != [] {
      assert (args + [a])[1..] == args[1..] + [a];
      TagsAppend(args[1..], a);
    }
  }

  lemma {:induction false} ValuesAppend(args: seq<OscArg>, a: OscArg)
    ensures ValuesText(args + [a]) == ValuesText(args) + " " + ArgText(a)
  {
    if args != [] {
      assert (args + [a])[1..] == args[1..] + [a];
      ValuesAppend(args[1..], a);
    }
  }

  /** A vector's elements spelled out, for short vectors. */
  lemma ElemsOfTwo(x: byte, y: byte)
    ensures ElemsText([x, y]) == ByteText(x) + " " + ByteText(y) + " "
  {
    var v := [x, y];
    assert v[1..] == [y] && v[1..][1..] == [];
  }

  lemma ElemsOfThree(x: byte, y: byte, z: byte)
    ensures ElemsText([x, y, z]) == ByteText(x) + " " + ByteText(y) + " " + ByteText(z) + " "
  {
    var v := [x, y, z];
    assert v[1..] == [y, z];
    ElemsOfTwo(y, z);
  }

  /** The note-on midi event of the source's tests. */
  lemma NoteOnText()
    ensures EventText(MidiEvent(Midi([0x80, 0x67, 0x34]))) == "M [ 0x80 0x67 0x34 ]"
  {
    var v: seq<byte> := [0x80, 0x67, 0x34];
    ElemsOfThree(0x80, 0x67, 0x34);
    NoteOnBytes();
    assert EventText(MidiEvent(Midi(v))) == "M " + ("[ " + ElemsText(v) + "]");
    SpelledNoteOn();
  }

  lemma SpelledNoteOn()
    ensures "M " + ("[ " + ("0x80" + " " + "0x67" + " " + "0x34" + " ") + "]") == "M [ 0x80 0x67 0x34 ]"
  {
  }

  lemma NoteOnBytes()
    ensures ByteText(0x80) == "0x80" && ByteText(0x67) == "0x67" && ByteText(0x34) == "0x34"
  {
  }

  /** The note-off midi event of the source's tests, with its zero-padded bytes. */
  lemma NoteOffText()
    ensures EventText(MidiEvent(Midi([0x90, 0x67, 0x00]))) == "M [ 0x90 0x67 0x00 ]"
  {
    var v: seq<byte> := [0x90, 0x67, 0x00];
    ElemsOfThree(0x90, 0x67, 0x00);
    NoteOffBytes();
    assert EventText(MidiEvent(Midi(v))) == "M " + ("[ " + ElemsText(v) + "]");
    SpelledNoteOff();
  }

  lemma SpelledNoteOff()
    ensures "M " + ("[ " + ("0x90" + " " + "0x67" + " " + "0x00" + " ") + "]") == "M [ 0x90 0x67 0x00 ]"
  {
  }

  lemma NoteOffBytes()
    ensures ByteText(0x90) == "0x90" && ByteText(0x67) == "0x67" && ByteText(0x00) == "0x00"
  {
  }

  /** An OSC event without arguments. */
  lemma OscNoArgsText(p: string)
    requires p == "/nsm/server/kill"
    ensures EventText(OscEvent(Osc(p, []))) == "O /nsm/server/kill {}"
  {
    assert EventText(OscEvent(Osc(p, []))) == "O " + p + " {}";
    SpelledKill(p);
  }

  lemma SpelledKill(p: string)
    requires p == "/nsm/server/kill"
    ensures "O " + p + " {}" == "O /nsm/server/kill {}"
  {
  }

  /** A string holding neither `"` nor `\\` is written between quotes unchanged. */
  lemma {:induction false} NoEscapes(s: string)
    requires forall k :: 0 <= k < |s| ==> s[k] != '"' && s[k] != '\\'
    ensures Escaped(s) == s
  {
    if s != [] {
      assert s[0] != '"' && s[0] != '\\';
      NoEscapes(s[1..]);
      assert [s[0]] + s[1..] == s;
    }
  }

  /** The string argument of the source's tests needs no escaping. */
  lemma PouetQuoted(q: string)
    requires q == "pouet haha"
    ensures QuotedText(q) == "\"" + q + "\""
  {
    NoEscapes(q);
  }

  /**
   * The layout of an OSC event with a string and a two-byte blob, the
   * shape of the source's test event: tags `sb`, then each value after a
   * space.
   */
  lemma StringBlobLayout(path: string, q: string, x: byte, y: byte)
    ensures EventText(OscEvent(Osc(path, [StrArg(q), BlobArg([x, y])])))
         == "O " + path + (" { " + "sb" + (" " + QuotedText(q) + " " + VectorText([x, y])) + " }")
  {
    var args := [StrArg(q), BlobArg([x, y])];
    assert args[1..] == [BlobArg([x, y])] && args[1..][1..] == [];
    assert ValuesText(args[1..]) == " " + VectorText([x, y]);
    assert ValuesText(args) == " " + QuotedText(q) + " " + VectorText([x, y]);
    assert TagsText(args) == "sb";
  }

  /** The play event of the source's tests. */
  lemma PlayText(t: string)
    requires t == "loopback"
    ensures EventText(InternalEvent(Play(t))) == "I play \"loopback\""
  {
    NoEscapes(t);
    assert QuotedText(t) == "\"" + t + "\"";
    assert EventText(InternalEvent(Play(t))) == "I " + "play " + QuotedText(t);
    SpelledPlay(t);
  }

  lemma SpelledPlay(t: string)
    requires t == "loopback"
    ensures "I " + "play " + ("\"" + t + "\"") == "I play \"loopback\""
  {
  }

  /** The stop event of the source's tests. */
  lemma StopText(t: string)
    requires t == "loopback"
    ensures EventText(InternalEvent(Stop(t))) == "I stop \"loopback\""
  {
    NoEscapes(t);
    assert QuotedText(t) == "\"" + t + "\"";
    assert EventText(InternalEvent(Stop(t))) == "I " + "stop " + QuotedText(t);
    SpelledStop(t);
  }

  lemma SpelledStop(t: string)
    requires t == "loopback"
    ensures "I " + "stop " + ("\"" + t + "\"") == "I stop \"loopback\""
  {
  }

  lemma Assoc(a: string, b: string, c: string)
    ensures a + (b + c) == (a + b) + c
  {
  }

  /** How the pieces of an OSC event with arguments add up. */
  lemma OscLayout(w: string, path: string, tags: string, values: string)
    ensures w + "O " + path + " { " + tags + values + " }" == w + ("O " + path + (" { " + tags + values + " }"))
  {
  }

  /** One more element written after the first `k`. */
  lemma ElemsStep(w: string, v: seq<byte>, k: nat)
    requires k < |v|
    ensures w + ElemsText(v[..k]) + ByteText(v[k]) + " " == w + ElemsText(v[..k + 1])
  {
    assert v[..k + 1] == v[..k] + [v[k]];
    ElemsAppend(v[..k], v[k]);
  }

  /** One more value written after the first `k`. */
  lemma ValuesStep(w: string, args: seq<OscArg>, k: nat)
    requires k < |args|
    ensures w + ValuesText(args[..k]) + " " + ArgText(args[k]) == w + ValuesText(args[..k + 1])
  {
    assert args[..k + 1] == args[..k] + [args[k]];
    ValuesAppend(args[..k], args[k]);
  }

  lemma VectorLayout(w: string, elems: string)
    ensures w + "[ " + elems + "]" == w + ("[ " + elems + "]")
  {
  }

  /** The output side of `writer`: everything written is appended to `os`. */
  class Writer {
    var os: string

    constructor()
      ensures os == []
    {
      os := [];
    }

    method Byte(b: byte)
      modifies this
      ensures os == old(os) + ByteText(b)
    {
      os := os + ByteText(b);
    }

    method Int(i: int32)
      modifies this
      ensures os == old(os) + IntText(i)
    {
      os := os + IntText(i);
    }

    method Str(s: string)
      modifies this
      ensures os == old(os) + QuotedText(s)
    {
      os := os + QuotedText(s);
    }

    /** `[ `, each element and a space, `]`. */
    method Vector(v: seq<byte>)
      modifies this
      ensures os == old(os) + VectorText(v)
    {
      os := os + "[ ";
      ghost var w := os;
      for k := 0 to |v|
        invariant os == w + ElemsText(v[..k])
      {
        Byte(v[k]);
        os := os + " ";
        ElemsStep(w, v, k);
      }
      assert v[..|v|] == v;
      os := os + "]";
      VectorLayout(old(os), ElemsText(v));
    }

    method Midi(m: Midi)
      modifies this
      ensures os == old(os) + MidiText(m)
    {
      os := os + "M ";
      Vector(m.datas);
    }

    method Arg(a: OscArg)
      modifies this
      ensures os == old(os) + ArgText(a)
    {
      match a
      case IntArg(i) => Int(i);
      case StrArg(s) => Str(s);
      case BlobArg(b) => Vector(b);
    }

    /** The tags loop: one tag character per argument. */
    method Tags(args: seq<OscArg>)
      modifies this
      ensures os == old(os) + TagsText(args)
    {
      for k := 0 to |args|
        invariant os == old(os) + TagsText(args[..k])
      {
        assert args[..k + 1] == args[..k] + [args[k]];
        TagsAppend(args[..k], args[k]);
        os := os + [TagOf(args[k])];
      }
      assert args[..|args|] == args;
    }

    /** The values loop: a space, then the argument. */
    method Values(args: seq<OscArg>)
      modifies this
      ensures os == old(os) + ValuesText(args)
    {
      ghost var w := os;
      for k := 0 to |args|
        invariant os == w + ValuesText(args[..k])
      {
        os := os + " ";
        Arg(args[k]);
        ValuesStep(w, args, k);
      }
      assert args[..|args|] == args;
    }

    /** The path, then either ` {}` or the tags loop, the values loop and ` }`. */
    method Osc(o: Osc)
      modifies this
      ensures os == old(os) + OscText(o)
    {
      var args := o.arguments;
      os := os + "O " + o.path;
      if |args| == 0 {
        os := os + " {}";
        return;
      }
      ghost var w := old(os);
      os := os + " { ";
      Tags(args);
      Values(args);
      os := os + " }";
      OscLayout(w, o.path, TagsText(args), ValuesText(args));
    }

    method Internal(i: Internal)
      requires i.Play? || i.Stop?
      modifies this
      ensures os == old(os) + InternalText(i)
    {
      os := os + "I ";
      if i.Play? {
        os := os + "play ";
      } else {
        os := os + "stop ";
      }
      Str(i.pattern);
    }

    method Event(e: Event)
      requires Writable(e)
      modifies this
      ensures os == old(os) + EventText(e)
    {
      match e
      case MidiEvent(m) => Midi(m);
      case OscEvent(o) => Osc(o);
      case InternalEvent(i) => Internal(i);
    }
  }
}
