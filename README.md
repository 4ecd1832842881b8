# 5FX-Syncer core, modelled in Dafny

5FX-Syncer is a MIDI/OSC sequencer. It keeps musical time in ticks (960
per quarter note, at a tempo in beats per minute) and audio time in frames
(at a sample rate). Its core has six parts, modelled here:

- **Time bases** (`time.dfy`, `time_laws.dfy`, module `Time` / `TimeLaws`).
  A timestamp is a count of ticks or frames together with the rate it is
  counted at. Conversion goes through the exact duration in seconds and
  truncates toward zero. This covers `remap`, `tick_to_frame` /
  `frame_to_tick`, `align_bases`, and the cross-rate `==` and `<`.
  Rates are exact rationals (`real`); counts are unbounded integers.
- **Intervals** (`interval.dfy`, module `Intervals`). A half-open integer
  interval `[begin, end[` with emptiness, equality, shift, intersection,
  membership and inclusion.
- **Events** (`events.dfy`, module `Events`). The event variant:
  - midi bytes;
  - an OSC message: a path plus int, string and blob arguments;
  - the internal `tick`, `play`, `resume`, `stop` and `end` events.

  It also models the operators the source defines on the event types, the
  lexicographic order of `std::vector` / `std::string` behind them, the
  `timestamp::end()` sentinel, and a pattern of time-ordered events.
- **Human-readable IO** (`hio_writer.dfy`, `hio_reader.dfy`, `hio_laws.dfy`,
  modules `HioWriter`, `HioReader`, `HioLaws`).
  - The writer is a class that appends to its output string.
  - The reader is a class that consumes its input string.
  - Each writer or reader method is proved equal to a specification
    function: `EventText` for the writer, `ParseEvent` and the other
    parsers for the reader.
  - The laws module proves that reading what was written gives back the
    same value, for bytes, integers, quoted strings, vectors, OSC messages,
    internal events, events and whole streams of events. It also proves
    that the malformed inputs the reader refuses are refused with the
    source's error.
- **Player simulation** (`player.dfy`, module `Player`). The block
  scheduler of the experimental player. It keeps an anchor that maps ticks
  to frames and steps ticks inside fixed-size audio blocks. On two sync
  events it hard-resyncs to a new tempo. The model replays the
  experiment's block sequence and proves the frames at which each tick
  falls.
- **Engine** (`engine.dfy`, module `Engines`). The pattern registry:
  - a list of pattern entries, indexed by name;
  - a map of active players;
  - the current time.

  It models `add_pattern` (with the duplicate-key refusal),
  `remove_pattern`, `tick` (advances every player), `play` (refuses an
  unknown key) and the dispatch of internal events. A player's window of
  events is modelled as lower/upper bounds on a time-ordered sequence.

## Model

| member | source | states |
|---|---|---|
| Time.Reference | src/core/time.hpp:11-33 | a tick's reference ratio is ppqn/60 per beat per minute (960/60) and a frame's is 1/1, both positive |
| Time.RatiosAreReduced | src/core/time.hpp:15-18 | the reference ratios are the reduced forms `std::ratio` gives (960/60 becomes 16/1) and the cross factor is reduced too |
| Time.Factor | src/core/time.hpp:54-62 | the factor between two units is the positive cross ratio of their reference ratios |
| Time.KHz | src/core/time.hpp:38-41 | a kHz sample rate is the Hz rate of a thousand times the count |
| Time.Trunc | src/core/time.hpp:54-62 | the integer cast truncates toward zero: the result lies within one of the value, on the side of zero |
| Time.TruncUnique | src/core/time.hpp:54-62 | truncation toward zero has exactly one result |
| Time.TruncMonotone | src/core/time.hpp:54-62 | truncation toward zero keeps the order of its arguments |
| Time.ScaledIsDuration | src/core/time.hpp:54-62 | the source's `count * to_rate * factor / from_rate` equals the exact duration in seconds expressed in the target unit at the target rate |
| Time.Convert | src/core/time.hpp:54-62 | `convert` yields the target unit and rate, and a count that truncates the exact duration counted at the target rate |
| Time.Remap | src/core/time.hpp:64-65 | `remap` keeps the unit, sets the new rate and truncates count × new rate / old rate |
| Time.SameKind | src/core/time.hpp:54-65 | converting to the unit itself is a rescale by the ratio of the rates |
| Time.TickFrameKinds | src/core/time.hpp:54-62 | tick-to-frame and frame-to-tick conversions through seconds equal the closed forms via 60/(ppqn·bpm) |
| Time.TickToFrame | src/core/time.hpp:104-105 | the result is in frames at the given sample rate, and its count truncates ticks × 60 × sr / (ppqn × bpm) |
| Time.FrameToTick | src/core/time.hpp:104-105 | the result is in ticks at the given tempo, and its count truncates frames × ppqn × bpm / (60 × sr) |
| Time.AlignBases | src/core/time.hpp:74-83 | both results are at the larger rate; the stamp already at that rate is unchanged and the other is remapped to it |
| Time.Equal | src/core/time.hpp:85-90 | `operator==`: the counts are equal once both stamps are aligned to the larger rate |
| Time.Less | src/core/time.hpp:92-97 | `operator<`: the first count is smaller once both stamps are aligned to the larger rate |
| TimeLaws.RemapOntoOwnRate | src/core/time.hpp:64-65 | remapping onto a stamp's own rate is the identity |
| TimeLaws.RemapExactWhenDivisible | src/core/time.hpp:64-65 | when count × new rate divides by the old rate, remap is exact |
| TimeLaws.RemapUpAndBack | src/core/time.hpp:64-65 | remapping up by an integer factor multiplies the count, and remapping back restores the stamp |
| TimeLaws.ConversionTruncates | src/core/time.hpp:54-65 | positive and negative fractional results are truncated toward zero, not floored |
| TimeLaws.TickFrameVectors | tests/time.cpp:22-37 | one beat at 60 bpm and two beats at 120 bpm are 48000 frames at 48 kHz, both ways, and tempo remaps scale ticks |
| TimeLaws.FrameRemapVectors | tests/time.cpp:34-49 | the sample-rate remaps between 48, 96 and 196 kHz of the tests, including very long counts |
| TimeLaws.LongRunVectors | tests/time.cpp:51-54 | the long-run tick/frame conversions of the tests, at 60 and 240 bpm against 196 kHz |
| TimeLaws.AlignSymmetric | src/core/time.hpp:74-83 | aligning b against a gives the pair of aligning a against b, swapped |
| TimeLaws.SameRateCompare | src/core/time.hpp:85-97 | at equal rates `==` and `<` compare the counts |
| TimeLaws.EqualReflexiveSymmetric | src/core/time.hpp:85-90 | `==` is reflexive and symmetric, and `<` is irreflexive |
| TimeLaws.Trichotomy | src/core/time.hpp:85-97 | exactly one of a < b, a == b and b < a holds |
| TimeLaws.CompareVectors | tests/time.cpp:58-71 | the cross-rate equalities and orderings of the tests |
| TimeLaws.NeitherEqualNorLess | tests/time.cpp:64-65 | 95999 frames at 96 kHz is neither equal to nor less than 47999 frames at 48 kHz |
| TimeLaws.EqualNotTransitive | src/core/time.hpp:85-90 | cross-rate `==` is not transitive: remapping to the larger rate loses precision |
| Intervals.NonEmptyIffContains | src/core/interval.hpp:16-17 | `operator bool` is true exactly when some point lies in the interval |
| Intervals.NonEmpty | src/core/interval.hpp:16-17 | `operator bool`: begin is before end |
| Intervals.Contains | src/core/interval.hpp:46-52 | `contains`: t is at or after begin and before end |
| Intervals.Eq | src/core/interval.hpp:20-25 | `operator==`: both empty, or the same bounds |
| Intervals.IncludeAsWritten | src/core/interval.hpp:54-63 | the source's `include`: u is empty, or i contains both u.begin and u.end |
| Intervals.Include | src/core/interval.hpp:54-63 | the corrected `include`: u is empty, or i.begin ≤ u.begin and u.end ≤ i.end |
| Intervals.HalfOpen | src/core/interval.hpp:46-52 | a non-empty interval contains its begin and never its end |
| Intervals.ContainsVectors | tests/interval.cpp:25-38 | the fixed membership cases of the interval tests, on integers: the begin is in, the end is out, a midpoint and 965485 are in |
| Intervals.EqIffSamePoints | src/core/interval.hpp:20-25 | `==` holds exactly when both intervals hold the same points (all empty intervals are equal) |
| Intervals.EqIsEquivalence | src/core/interval.hpp:20-25 | `==` is an equivalence and identifies all empty intervals |
| Intervals.Shift | src/core/interval.hpp:29-35 | shifting keeps the length and the emptiness |
| Intervals.ShiftContains | src/core/interval.hpp:29-35 | t is in i exactly when t + diff is in the shifted interval |
| Intervals.ShiftInverse | src/core/interval.hpp:29-35 | shifting by -diff undoes shifting by diff |
| Intervals.Intersect | src/core/interval.hpp:37-42 | the intersection starts at the later begin and ends at the earlier end |
| Intervals.IntersectContains | src/core/interval.hpp:37-42 | a point is in the intersection exactly when it is in both intervals |
| Intervals.IntersectCommutes | src/core/interval.hpp:37-42 | intersection is commutative |
| Intervals.IncludeAsWrittenBounds | src/core/interval.hpp:54-63 | the source's `include` holds when u is empty, or when u.begin ≥ i.begin and u.end < i.end |
| Intervals.IncludeAsWrittenSound | src/core/interval.hpp:54-63 | when the source's `include` holds, every point of u is in i |
| Intervals.IncludeAsWrittenNotReflexive | src/core/interval.hpp:54-63 | the source's `include` of u in itself holds only when u is empty |
| Intervals.IncludeAsWrittenCounterexample | src/core/interval.hpp:54-63 | [0,2[ is a subset of itself, yet the source's `include` says it is not included |
| Intervals.IncludeIffSubset | src/core/interval.hpp:54-63 | the corrected `include` holds exactly when every point of u is in i |
| Intervals.IncludeOrder | src/core/interval.hpp:54-63 | the corrected `include` is reflexive and transitive, and is implied by the source's |
| Events.LexLessIff | src/core/types.hpp:19-37 | the vector/string `<` holds exactly when a is a proper prefix of b or they first differ at an index where a's element is smaller |
| Events.LexLess | src/core/types.hpp:19-37 | the `<` of `std::vector` and `std::string`: first difference decides, and a proper prefix is smaller |
| Events.MidiEq | src/core/types.hpp:23 | midi `==`: the data vectors are equal |
| Events.MidiNe | src/core/types.hpp:24 | midi `!=`: the data vectors differ |
| Events.MidiLess | src/core/types.hpp:25 | midi `<`: the data vectors compare lexicographically |
| Events.TagOf | src/core/hio.hpp:69-74 | the OSC type tag of an argument: `i`, `s` or `b` |
| Events.ArgLess | src/core/types.hpp:30 | the variant `<` on OSC arguments: by alternative index, then by value |
| Events.OscEq | src/core/types.hpp:35 | OSC `==`: equal paths and equal arguments |
| Events.OscNe | src/core/types.hpp:36 | OSC `!=`: the paths or the arguments differ |
| Events.OscLess | src/core/types.hpp:37 | OSC `<`: the path is smaller and the arguments are smaller |
| Events.InternalEq | src/core/types.hpp:41-66 | internal `==`: same alternative, and for `play` and `stop` the same pattern name |
| Events.InternalNe | src/core/types.hpp:41-66 | internal `!=`: another alternative, or for `play` and `stop` another pattern name |
| Events.InternalLess | src/core/types.hpp:41-66 | internal `<`: by alternative index; `play` and `stop` by pattern name, the unit events never |
| Events.EventEq | src/core/types.hpp:69 | variant `==` on events: same alternative and equal by that alternative's `==` |
| Events.LexLessIrreflexive | src/core/types.hpp:19-37 | lexicographic `<` is irreflexive |
| Events.LexLessTransitive | src/core/types.hpp:19-37 | lexicographic `<` is transitive |
| Events.LexLessTotal | src/core/types.hpp:19-37 | any two distinct sequences are ordered by lexicographic `<` |
| Events.LexOrder | src/core/types.hpp:19-37 | lexicographic `<` over a strict total order is a strict total order |
| Events.ScalarOrders | src/core/types.hpp:19-37 | `<` on bytes and on chars are strict total orders |
| Events.MidiOperators | src/core/types.hpp:19-25 | midi `==` is equality of the data, `!=` is its negation, and `<` is a strict total order |
| Events.ArgOrder | src/core/types.hpp:28-37 | the variant `<` on OSC arguments (by alternative, then by value) is a strict total order |
| Events.OscOperators | src/core/types.hpp:28-37 | OSC `==` is equality of path and arguments, `!=` is its negation, and `<` is irreflexive and transitive |
| Events.OscLessNotTotal | src/core/types.hpp:28-37 | OSC `<` requires both path and arguments to be smaller, so two distinct messages can be unordered |
| Events.InternalOperators | src/core/types.hpp:41-66 | internal-event `==` is equality, `!=` its negation, and `<` a strict total order |
| Events.UnitEvents | src/core/types.hpp:41-66 | two `tick`, `resume` or `end` values are equal, not unequal, and not less |
| Events.EventEqIsEquality | src/core/types.hpp:69 | variant `==` over midi, OSC and internal events is equality |
| Events.EndTimeIsMaxFloat | src/core/types.hpp:76-80 | `timestamp::end()` is the largest finite float, (2^24 - 1) · 2^104 |
| Events.NewPattern | src/core/types.hpp:99-107 | a new pattern has its name and exactly one event, `end` at `timestamp::end()`, so it is time ordered |
| HioWriter.ByteText | src/core/hio.hpp:31-32 | a byte is written as `0x` and two digits |
| HioWriter.IntText | src/core/hio.hpp:33-34 | an `int32_t` in decimal, with a minus sign when negative |
| HioWriter.Escaped | src/core/hio.hpp:37-38 | the body of `std::quoted`: `"` and `\` get a backslash before them |
| HioWriter.ElemsText | src/core/hio.hpp:42-49 | the vector helper's loop: each byte's text followed by a space |
| HioWriter.MidiText | src/core/hio.hpp:56-60 | a midi event is `M ` and its data vector |
| HioWriter.OscText | src/core/hio.hpp:61-80 | an OSC event is `O `, the path, then ` {}` or ` { `, the tags, each value after a space, and ` }` |
| HioWriter.ArgText | src/core/hio.hpp:75-76 | an argument's value is written by the writer for its alternative |
| HioWriter.ValuesText | src/core/hio.hpp:75-76 | each argument value preceded by a space |
| HioWriter.InternalText | src/core/hio.hpp:81-89 | an internal event is `I `, `play ` or `stop `, and the quoted pattern name |
| HioWriter.DecimalText | src/core/hio.hpp:33-34 | a decimal is a non-empty run of digits with no leading zero |
| HioWriter.EscapedChar | src/core/hio.hpp:37-38 | each char is written as itself or preceded by a backslash |
| HioWriter.QuotedText | src/core/hio.hpp:37-38 | a quoted string starts and ends with `"` |
| HioWriter.VectorText | src/core/hio.hpp:42-49 | a vector of n bytes is `[ `, then 5n chars, then `]` |
| HioWriter.TagsText | src/core/hio.hpp:67-74 | the tag string has one tag char per argument, in order |
| HioWriter.EventText | src/core/hio.hpp:53-89 | an event's text starts with its kind letter `M`, `O` or `I` and a space |
| HioWriter.ElemsAppend | src/core/hio.hpp:42-49 | writing one more element appends its text and a space |
| HioWriter.TagsAppend | src/core/hio.hpp:67-74 | one more argument appends its tag char |
| HioWriter.ValuesAppend | src/core/hio.hpp:75-76 | one more argument appends a space and its value |
| HioWriter.NoEscapes | src/core/hio.hpp:37-38 | a string without `"` or `\` needs no escape |
| HioWriter.NoteOnText | src/core/tests/load.cpp:21 | the note-on event is written `M [ 0x80 0x67 0x34 ]` |
| HioWriter.NoteOffText | src/core/tests/load.cpp:22 | the note-off event is written `M [ 0x90 0x67 0x00 ]`, with zero-padded bytes |
| HioWriter.OscNoArgsText | src/core/tests/load.cpp:29 | an OSC event without arguments is written `O /nsm/server/kill {}` |
| HioWriter.PouetQuoted | src/core/tests/load.cpp:30 | the string argument of the tests is written between plain quotes |
| HioWriter.StringBlobLayout | src/core/tests/load.cpp:30 | an OSC event with a string and a blob is written with tags `sb`, then each value after a space, between braces |
| HioWriter.PlayText | src/core/tests/load.cpp:39 | `play "loopback"` is written `I play "loopback"` |
| HioWriter.StopText | src/core/tests/load.cpp:41 | `stop "loopback"` is written `I stop "loopback"` |
| HioWriter.Writer.Byte | src/core/hio.hpp:31-32 | appends the byte's text to the stream |
| HioWriter.Writer.Int | src/core/hio.hpp:33-34 | appends the integer's decimal text |
| HioWriter.Writer.Str | src/core/hio.hpp:37-38 | appends the quoted, escaped string |
| HioWriter.Writer.Vector | src/core/hio.hpp:42-49 | its loop appends exactly the vector text |
| HioWriter.Writer.Midi | src/core/hio.hpp:56-60 | appends the midi text |
| HioWriter.Writer.Arg | src/core/hio.hpp:75-76 | appends one argument's value |
| HioWriter.Writer.Tags | src/core/hio.hpp:67-74 | its loop appends the tag string |
| HioWriter.Writer.Values | src/core/hio.hpp:75-76 | its loop appends each value after a space |
| HioWriter.Writer.Osc | src/core/hio.hpp:61-80 | appends the OSC text, `{}` without arguments |
| HioWriter.Writer.Internal | src/core/hio.hpp:81-89 | appends `I play` or `I stop` and the quoted pattern name |
| HioWriter.Writer.Event | src/core/hio.hpp:53-54 | appends the text of any writable event |
| HioReader.SkipWs | src/core/hio.hpp:115 | `std::ws` leaves input that is empty or starts with a non-space |
| HioReader.SkippedAreSpaces | src/core/hio.hpp:115 | `std::ws` drops only a prefix of whitespace |
| HioReader.SpansAreMaximal | src/core/hio.hpp:119 | a word stops at whitespace and a `getline` token stops at `' '` |
| HioReader.DigitsLength | src/core/hio.hpp:101-104 | the digit run is maximal |
| HioReader.ReadChar | src/core/hio.hpp:135 | `>> std::ws >> c` fails exactly on all-whitespace input, and otherwise reads a non-space |
| HioReader.ReadWord | src/core/hio.hpp:150-153 | `>> std::string` fails exactly on all-whitespace input, and otherwise reads a non-empty word that ends at whitespace |
| HioReader.ReadQuoted | src/core/hio.hpp:107-108 | `std::quoted` consumes input, and on failure leaves none |
| HioReader.ReadInt32 | src/core/hio.hpp:103-104 | reading an `int32_t` consumes input when it succeeds |
| HioReader.Clamp | src/core/hio.hpp:101-102 | an out-of-range `int` read is clamped to the int32 range, and others are kept |
| HioReader.ByteOfToken | src/core/hio.hpp:101-102 | the byte is the hex token's value modulo 256 (`static_cast<std::byte>`) |
| HioReader.NextToken | src/core/hio.hpp:119 | `getline(is >> ws, token, ' ')` fails exactly on all-whitespace input, and otherwise gives a non-empty token |
| HioReader.ParseTokens | src/core/hio.hpp:119-125 | running out before `]` is the "error while parsing array" |
| HioReader.ParseVector | src/core/hio.hpp:112-128 | a vector is `[` after whitespace, then its tokens up to `]`; anything else is the invalid-vector-start error |
| HioReader.ParseMidi | src/core/hio.hpp:145-146 | a midi event is a vector of bytes |
| HioReader.ParseOsc | src/core/hio.hpp:147-175 | an OSC event is a path, `{`, the tags, one argument per tag and `}` |
| HioReader.ParseArg | src/core/hio.hpp:157-166 | a read argument carries the tag it was read for |
| HioReader.ParseArgs | src/core/hio.hpp:157-168 | one argument is read per tag |
| HioReader.OscTagged | src/core/hio.hpp:156-174 | the message read keeps the path read before it |
| HioReader.CloseOsc | src/core/hio.hpp:170-174 | after the arguments a `}` closes the message with that path and those arguments |
| HioReader.ParseInternal | src/core/hio.hpp:176-191 | only `play` and `stop` are read |
| HioReader.ParseEvent | src/core/hio.hpp:132-143 | any event read consumes input, and an internal one is `play` or `stop` |
| HioLaws.ParseEvents | src/core/hio.hpp:132-143 | n successive reads give n events |
| HioLaws.VectorStartRejected | src/core/hio.hpp:115-116 | the vector read fails with the invalid-vector-start error exactly when the next non-space char is missing or is not `[` |
| HioReader.PrefixedConcat | src/core/hio.hpp:118-123 | prefixing the elements read so far composes |
| HioReader.Reader.TakeInt32 | src/core/hio.hpp:103-104 | reads as `ReadInt32`, consuming the input only on success |
| HioReader.Reader.TakeString | src/core/hio.hpp:107-108 | reads as `ReadQuoted` |
| HioReader.Reader.TakeVector | src/core/hio.hpp:112-128 | its token loop computes `ParseVector`, consuming exactly what the parse consumes |
| HioReader.Reader.TakeMidi | src/core/hio.hpp:145-146 | computes `ParseMidi` |
| HioReader.Reader.TakeArg | src/core/hio.hpp:159-166 | computes `ParseArg` for the tag |
| HioReader.Reader.TakeArgs | src/core/hio.hpp:157-168 | its loop over the tags computes `ParseArgs` |
| HioReader.Reader.TakeOsc | src/core/hio.hpp:147-175 | computes `ParseOsc` |
| HioReader.Reader.TakeTagged | src/core/hio.hpp:156-174 | computes `OscTagged` |
| HioReader.Reader.TakeInternal | src/core/hio.hpp:176-191 | computes `ParseInternal` |
| HioReader.Reader.TakeEvent | src/core/hio.hpp:132-143 | computes `ParseEvent` |
| HioLaws.HexDigitValue | src/core/hio.hpp:31-32 | a written hex digit reads back as its value |
| HioLaws.DecDigitValue | src/core/hio.hpp:33-34 | a written decimal digit reads back as its value |
| HioLaws.ByteRoundTrip | src/core/hio.hpp:31-32 | reading a written byte gives the byte back |
| HioLaws.SkipWsIdempotent | src/core/hio.hpp:115 | skipping whitespace twice is skipping it once |
| HioLaws.DecimalRoundTrip | src/core/hio.hpp:33-34 | the digits written for n read back as n |
| HioLaws.IntRoundTrip | src/core/hio.hpp:33-34 | reading a written int32, followed by a non-digit, gives it back with the rest untouched |
| HioLaws.NegativeRoundTrip | src/core/hio.hpp:33-34 | the same for negative values, down to -2^31 |
| HioLaws.QuotedBodyRoundTrip | src/core/hio.hpp:37-38 | the escaped body followed by a closing quote reads back as the string |
| HioLaws.QuotedRoundTrip | src/core/hio.hpp:37-38 | reading a written quoted string gives the string back, with the rest untouched |
| HioLaws.TokensRoundTrip | src/core/hio.hpp:42-49 | written elements followed by `]` read back as the byte vector |
| HioLaws.VectorRoundTrip | src/core/hio.hpp:42-49 | reading a written vector gives the vector back |
| HioLaws.ArgRoundTrip | src/core/hio.hpp:75-76 | reading a written argument with its tag gives it back |
| HioLaws.ArgsRoundTrip | src/core/hio.hpp:67-76 | reading written values with the written tags gives the arguments back |
| HioLaws.TaggedRoundTrip | src/core/hio.hpp:61-80 | a written tagged OSC body reads back as the message |
| HioLaws.OscRoundTrip | src/core/hio.hpp:61-80 | reading a written OSC message with a one-word path gives it back |
| HioLaws.InternalRoundTrip | src/core/hio.hpp:81-89 | reading a written `play`/`stop` gives it back |
| HioLaws.MidiRoundTrip | src/core/hio.hpp:56-60 | reading a written midi event gives it back |
| HioLaws.EventRoundTrip | src/core/hio.hpp:53-89 | reading any readable written event gives it back |
| HioLaws.MidiEventRoundTrip | src/core/hio.hpp:56-60 | the kind letter `M` dispatches to the midi reader |
| HioLaws.OscEventRoundTrip | src/core/hio.hpp:61-80 | the kind letter `O` dispatches to the OSC reader |
| HioLaws.InternalEventRoundTrip | src/core/hio.hpp:81-89 | the kind letter `I` dispatches to the internal reader |
| HioLaws.EventSkipsWs | src/core/hio.hpp:135 | event reading ignores leading whitespace |
| HioLaws.LeadingWhitespace | src/core/tests/load.cpp:73-77 | any whitespace before an event is skipped |
| HioLaws.UnknownKind | src/core/hio.hpp:141 | a kind letter other than `M`, `O`, `I` is the invalid message type error |
| HioLaws.EventsRoundTrip | src/core/tests/load.cpp:79-84 | a space-joined stream of written events reads back event by event |
| HioLaws.ReadNoteOn | src/core/tests/load.cpp:57 | `M [ 0x80 0x67 0x34 ]` reads as the note-on event |
| HioLaws.ReadNoteOff | src/core/tests/load.cpp:58 | `M [ 0x90 0x67 0x00 ]` reads as the note-off event |
| HioLaws.ReadOscNoArgs | src/core/tests/load.cpp:61 | `O /nsm/server/kill {}` reads as the OSC event without arguments |
| HioLaws.ReadInternal | src/core/tests/load.cpp:65-67 | `I play "loopback"` and `I stop "loopback"` read as those events |
| HioLaws.TokenThenRunOut | src/core/hio.hpp:119-125 | a token other than `]` followed by running out is the array error |
| HioLaws.UnspacedVectorRejected | src/core/tests/load.cpp:86-92 | `M[0x.. 0x.. 0x..]` without spaces is refused |
| HioLaws.UnclosedMidi | src/core/hio.hpp:119-125 | a midi vector whose tokens fail is refused with the array error |
| HioLaws.TickRejected | src/core/hio.hpp:176-184 | `I tick` is refused as an invalid internal type |
| HioLaws.UnknownInternalRejected | src/core/hio.hpp:176-184 | any internal word other than `play` and `stop` is refused |
| HioLaws.OscBodyFails | src/core/hio.hpp:138-139 | an OSC body that fails gives that failure for the event |
| HioLaws.OscOpening | src/core/hio.hpp:150-156 | after the path, a lone `{` starts the tagged part |
| HioLaws.UnknownTagRejected | src/core/hio.hpp:165 | an unknown tag letter is the invalid OSC argument type error |
| HioLaws.MissingCloseRejected | src/core/hio.hpp:170-172 | arguments not followed by `}` are the invalid stop character error |
| HioLaws.SpacedPathNotReadBack | src/core/hio.hpp:147-154 | a path with a space is written but not read back |
| Player.AnchorMap | exp/player.cpp:23-31 | the frame of a tick is the anchor's frame plus the truncated frame count of the ticks since the anchor tick |
| Player.AnchorMapAtAnchor | exp/player.cpp:23-31 | the anchor tick maps to the anchor frame |
| Player.AnchorMapMonotone | exp/player.cpp:23-31 | with a positive tempo and sample rate, later ticks never map to earlier frames |
| Player.RateForExact | exp/player.cpp:96-105 | the tempo found makes the tick count last exactly the frame count |
| Player.ToBase | exp/player.cpp:96-105 | the tempo solves "ticks last deltaf frames" exactly |
| Player.ToBaseRoundTrip | exp/player.cpp:96-105 | converting the ticks back at that tempo gives deltaf's frame count |
| Player.ToBaseUnique | exp/player.cpp:96-105 | that tempo is the only one with this property |
| Player.TicksAsFramesInjective | exp/player.cpp:96-105 | distinct tempos give distinct frame counts for the same tick count |
| Player.HardSync | exp/player.cpp:96-110 | a hard sync anchors the tick at the given frame, with the tempo that fits the measured delta |
| Player.ToBaseVectors | exp/player.cpp:96-145 | 128 frames per tick at 48 kHz is 23.4375 bpm and 100 frames per tick is 30 bpm |
| Player.AnchorVectors | exp/player.cpp:23-150 | the frames at which ticks fall under the initial anchor and both syncs |
| Player.Scheduler.Step | exp/player.cpp:36-57 | a tick passes exactly when its frame is before the block end, and then the next tick is scheduled |
| Player.Scheduler.StepBlock | exp/player.cpp:59-63 | steps no tick: the current frame becomes the old block end, the block end moves on by the block size and the block index goes up by one |
| Player.Scheduler.Resync | exp/player.cpp:96-110 | the new anchor replaces the old and the next tick's frame is recomputed from it |
| Player.Simulate | exp/player.cpp:19-152 | the whole experiment ends at tick 4, next tick frame 584, block 7 |
| Player.OpeningBlocks | exp/player.cpp:65-111 | the first two blocks, then the first sync |
| Player.QuietBlocks | exp/player.cpp:113-127 | the blocks without a sync |
| Player.LastBlock | exp/player.cpp:129-152 | the block of the second sync |
| Engines.LowerBound | src/core/engine.hpp:22-33 | `lower_bound(t)`: every earlier event is before t, and the event at the bound is not |
| Engines.UpperBound | src/core/engine.hpp:22-33 | `upper_bound(end)`: every earlier event is at or before end, and the event at the bound is after it |
| Engines.Window | src/core/engine.hpp:31-32 | the player's call: from `lower_bound(t)` to `upper_bound(end)` in its pattern |
| Engines.WindowContents | src/core/engine.hpp:22-33 | in a time-ordered pattern, the player's window holds exactly the events timed in [t, end] |
| Engines.ActiveWindow | src/core/engine.hpp:22-40 | in a consistent engine, every player's window holds exactly the events of its pattern timed from its t to end |
| Engines.NamesUnique | src/core/engine.hpp:36-40 | in a consistent engine, distinct list entries have distinct names |
| Engines.AddKeepsConsistent | src/core/engine.hpp:44-50 | pushing a new entry and indexing it by its name keeps the engine consistent |
| Engines.Erase | src/core/engine.hpp:51-60 | `list::erase` keeps every other entry and drops that one |
| Engines.EraseAt | src/core/engine.hpp:51-60 | in a list without repeats, erasing the entry at i removes exactly position i |
| Engines.EraseAbsent | src/core/engine.hpp:51-60 | erasing an entry that is not there changes nothing |
| Engines.EraseKeepsDistinct | src/core/engine.hpp:51-60 | erasing keeps the list free of repeats |
| Engines.RemoveKeepsConsistent | src/core/engine.hpp:51-60 | erasing a pattern from list, index and players keeps the engine consistent |
| Engines.ErasedPosition | src/core/engine.hpp:51-60 | the indexed entry sits at one position of the list and removing it removes that position |
| Engines.Advanced | src/core/engine.hpp:65-72 | every player moves one tick forward and keeps its pattern |
| Engines.AdvancePlayers | src/core/engine.hpp:65-72 | its loop over the players computes `Advanced` |
| Engines.AdvanceKeepsConsistent | src/core/engine.hpp:65-72 | advancing the players keeps the engine consistent |
| Engines.Engine.constructor | src/core/engine.hpp:36-40 | a new engine has no patterns, no players, and the given time |
| Engines.Engine.AddPattern | src/core/engine.hpp:44-50 | a known name is refused with a duplicated-key error and nothing changes; otherwise a fresh entry is pushed to the front and indexed |
| Engines.Engine.RemovePattern | src/core/engine.hpp:51-60 | an unknown name changes nothing; otherwise the pattern leaves the list, the index and the players |
| Engines.Engine.Tick | src/core/engine.hpp:65-72 | time moves on by one and every player advances; the patterns are unchanged |
| Engines.Engine.Play | src/core/engine.hpp:73-78 | an unknown key is refused with an invalid-key error, and a known one is accepted |
| Engines.Engine.Handle | src/core/engine.hpp:62-86 | dispatches `tick` to Tick and `play` to Play; `resume` and `stop` change nothing |

## Left out

- Float OSC arguments (writer `src/core/hio.hpp:35-36`, reader `105-106`, tag `f`) are not modelled, because iostream float formatting and parsing are floating point. Reading tag `f` is a model error (`FloatArgument`).
- HioReader.ReadInt32: `int32_t` extraction of an out-of-range value is modelled as a failure. The `int` read for bytes is clamped (`Clamp`, as iostream does). Locale and other stream flags are not modelled.
- HioReader.Reader: on an error the model leaves the input unchanged and returns a failure. The source consumes part of the stream and then throws. A failed stream state is modelled as the input having run out.
- HioLaws.OscRoundTrip: OSC paths must be one word, because the reader reads the path with `>>`. SpacedPathNotReadBack shows that a path with a space is written but not read back.
- HioLaws.MidiRoundTrip: the text after a vector must start with a space (the `getline` delimiter), so the round trip is stated only for such a rest.
- The writer has no overloads for `tick`, `resume` and `end`, so `EventText` requires a `play` or `stop` internal event (`Writable`). The reader reads only `play` and `stop`. src/core/tests/load.cpp:42-43 and 68-69 expect `I tick` and `I resume`; the model follows the code (TickRejected).
- Integers are unbounded. Overflow of `intmax_t` in the time conversions is not modelled, and tempos and sample rates are exact rationals rather than floats.
- `time::syncer` and `to_base`, used by exp/player.cpp, are not defined in src/core/time.hpp, the header exp/player.cpp includes (`strong-types.hpp` is not part of this model). Player.AnchorMap and Player.ToBase define them from `convert`: to_base is the tempo at which the ticks last exactly `deltaf` frames. Player.ToBase requires a non-zero frame and tick delta, where the source would divide by zero.
- The experiment's console output (`std::cout`) is left out. Player.Simulate returns the final tick, frame and block instead.
- Engines: `timestamp` is float in the source; the model uses integer ticks. `EndTime` is FLT_MAX as an exact integer, and `++` rounding near it is not modelled.
- Engines.Engine.constructor: `current_time` is not initialised in the source, so the model takes a starting time.
- Engines.Engine.Play: the line inserting the player is commented out in the source, so `play` only checks the key. The handlers have no return statement and run off the end of a function returning `std::list`; they return nothing, so only their effects on the engine's state are modelled.
- Engines.Engine.Handle requires a non-`end` event. There is no handler for `end`, so `std::visit(*this, e)` converts it back to the variant and calls `operator()(const internal::any&)` (engine.hpp:62-63) again, which recurses without bound.
- Engines.Engine.Handle: `resume` and `stop` have empty bodies in the source (`engine.hpp:79-86`), so the model changes nothing.
- Player windows: engine.hpp:22-33 is modelled as the index bounds (`Window`), not as iterators.
- Engines.Engine.AddPattern requires the pattern's events in time order. The source's multimap keyed by timestamp is ordered by construction; the model's sequence is not, so the order is part of `Consistent` and ActiveWindow relies on it.
- Strings: a Dafny `string` is a sequence of Unicode scalar values, a `std::string` a sequence of bytes. CharLess, IsSpace and the quoted reader treat one char as one byte. For UTF-8 text both agree on the byte order and on the ASCII classification; byte strings that are not valid UTF-8 cannot be represented.
- Pattern bindings (`binding`, `std::function`), channels and `std::hash` specialisations (types.hpp:92-127) are callbacks and hashing, outside the modelled behaviour.
- The random float draws of tests/interval.cpp:18-23 are not modelled. Intervals are over integers, so the fixed cases become integer points (`ContainsVectors`, with 0.5 in [0,1[ scaled to 1 in [0,2[).
- src/core/tests/time.cpp tests a runtime `ratio` / `duration` API that is not in time.hpp, so it is not modelled. The vectors come from tests/time.cpp, which uses time.hpp's own API.

## Findings

| source | as written | input that shows it | evidently intended | confidence | as-written member | corrected member |
|---|---|---|---|---|---|---|
| src/core/interval.hpp:54-63 | `include(i, u)` tests `i.contains(u.end)`, and a half-open interval never contains its own end | `include([0,2[, [0,2[)` is false | u ⊆ i: `u.begin >= i.begin && u.end <= i.end` for a non-empty u | high (not executed) | Intervals.IncludeAsWrittenCounterexample | Intervals.IncludeIffSubset |
