/**
 * The output stream of the i3bar/swaybar protocol (src/main.rs:69-137): the
 * header object once, then the opening of an endless JSON array holding an
 * empty first element, then per tick a comma, the tick's block array, a
 * newline and a flush.
 */
module Stream {

  import opened Options
  import opened Text
  import opened Json
  import opened Protocol
  import opened Network
  import opened Clock
  import opened Schedule
  import opened Frame
  import opened Sequences

  /** What the program does to standard output: write some text, or flush. */
  datatype Event = Wrote(text: string) | Flushed

  /** `writeln!(stdout, "\n[[]")`: open the endless array and give it an empty first element. */
  const ArrayStart: string := "\n[[]\n"

  /** The header serialisation and the array opening. */
  function HeaderEvents(header: string): seq<Event> {
    [Wrote(header), Wrote(ArrayStart)]
  }

  /** One tick's output: a comma, the block array's text, a newline, then a flush. */
  function TickEvents(frame: string): seq<Event> {
    [Wrote(","), Wrote(frame), Wrote("\n"), Flushed]
  }

  /** The output of a sequence of ticks, in order. */
  function TicksEvents(frames: seq<string>): (r: seq<Event>)
    ensures |r| == 4 * |frames|
  {
    if frames == [] then []
    else TicksEvents(frames[..|frames| - 1]) + TickEvents(frames[|frames| - 1])
  }

  /** The text serde_json writes for each tick's blocks. */
  function FrameTexts(frames: seq<seq<Body>>): (r: seq<string>)
    ensures |r| == |frames|
    ensures forall i | 0 <= i < |frames| :: r[i] == Render(FrameJson(frames[i]))
  {
    seq(|frames|, i requires 0 <= i < |frames| => Render(FrameJson(frames[i])))
  }

  /** Everything written from start-up through the given ticks, after the given header text. */
  function Session(header: string, frames: seq<seq<Body>>): seq<Event> {
    HeaderEvents(header) + TicksEvents(FrameTexts(frames))
  }

  /** The text a reader of standard output receives: every write, in order; flushes add nothing. */
  function OutputText(events: seq<Event>): string {
    if events == [] then ""
    else
      var last := events[|events| - 1];
      OutputText(events[..|events| - 1]) + (if last.Wrote? then last.text else "")
  }

  lemma {:induction false} OutputTextConcat(a: seq<Event>, b: seq<Event>)
    ensures OutputText(a + b) == OutputText(a) + OutputText(b)
    decreases |b|
  {
    if b == [] {
      assert a + b == a;
    } else {
      assert (a + b)[..|a + b| - 1] == a + b[..|b| - 1];
      OutputTextConcat(a, b[..|b| - 1]);
    }
  }

  lemma {:induction false} TicksEventsAt(frames: seq<string>, k: nat)
    requires k < |frames|
    ensures TicksEvents(frames)[4 * k..4 * k + 4] == TickEvents(frames[k])
    decreases |frames|
  {
    var n := |frames| - 1;
    if k < n {
      TicksEventsAt(frames[..n], k);
      assert frames[..n][k] == frames[k];
    }
  }

  /**
   * The layout of a session: the header text first and only there, the array
   * opening second, and tick k's four events (its block array's text, ending
   * with a flush) at positions 2 + 4k through 5 + 4k.
   */
  lemma SessionLayout(h: Header, frames: seq<seq<Body>>)
    ensures var s := Session(Render(HeaderJson(h)), frames);
      |s| == 2 + 4 * |frames|
      && s[0] == Wrote(Render(HeaderJson(h)))
      && s[1] == Wrote(ArrayStart)
      && (forall i | 1 <= i < |s| :: s[i] != s[0])
      && (forall k | 0 <= k < |frames| :: s[2 + 4 * k..6 + 4 * k] == TickEvents(Render(FrameJson(frames[k]))))
      && (forall k | 0 <= k < |frames| :: s[5 + 4 * k] == Flushed)
  {
    var head := Render(HeaderJson(h));
    var texts := FrameTexts(frames);
    forall k | 0 <= k < |texts| ensures texts[k] != head {
      assert texts[k][0] == '[';
    }
    assert head[0] == '{';
    var s := Session(head, frames);
    EventsTicks(head, texts, s);
    EventsHeaderOnce(head, texts, s);
  }

  /** In the events for a header text and tick texts, tick k's four events sit at 2 + 4k to 5 + 4k. */
  lemma EventsTicks(head: string, texts: seq<string>, s: seq<Event>)
    requires s == HeaderEvents(head) + TicksEvents(texts)
    ensures |s| == 2 + 4 * |texts|
    ensures forall k | 0 <= k < |texts| :: s[2 + 4 * k..6 + 4 * k] == TickEvents(texts[k]) && s[5 + 4 * k] == Flushed
  {
    forall k | 0 <= k < |texts|
      ensures s[2 + 4 * k..6 + 4 * k] == TickEvents(texts[k]) && s[5 + 4 * k] == Flushed
    {
      EventsTickAt(head, texts, k);
    }
  }

  /** When no tick text repeats the header, the header's write is the first event and no other. */
  lemma EventsHeaderOnce(head: string, texts: seq<string>, s: seq<Event>)
    requires head != "" && head[0] == '{'
    requires forall k | 0 <= k < |texts| :: texts[k] != head
    requires s == HeaderEvents(head) + TicksEvents(texts)
    ensures forall i | 1 <= i < |s| :: s[i] != s[0]
  {
    forall i | 1 <= i < |s| ensures s[i] != s[0] {
      EventsNotHeader(head, texts, i);
    }
  }

  /** Tick k's four events sit at positions 2 + 4k to 5 + 4k, the flush last. */
  lemma EventsTickAt(head: string, texts: seq<string>, k: nat)
    requires k < |texts|
    ensures var s := HeaderEvents(head) + TicksEvents(texts);
      6 + 4 * k <= |s| && s[2 + 4 * k..6 + 4 * k] == TickEvents(texts[k]) && s[5 + 4 * k] == Flushed
  {
    var s := HeaderEvents(head) + TicksEvents(texts);
    var t := TicksEvents(texts);
    TicksEventsAt(texts, k);
    assert s[2 + 4 * k..6 + 4 * k] == t[4 * k..4 * k + 4];
    assert s[5 + 4 * k] == TickEvents(texts[k])[3];
  }

  /** No event after the first is the header's write. */
  lemma EventsNotHeader(head: string, texts: seq<string>, i: nat)
    requires head != "" && head[0] == '{'
    requires forall k | 0 <= k < |texts| :: texts[k] != head
    requires 1 <= i < 2 + 4 * |texts|
    ensures var s := HeaderEvents(head) + TicksEvents(texts);
      s[i] != s[0]
  {
    var s := HeaderEvents(head) + TicksEvents(texts);
    if i == 1 {
      assert ArrayStart[0] != head[0];
    } else {
      var k, j := (i - 2) / 4, (i - 2) % 4;
      assert 4 * k + j == i - 2;
      TickEventNotHeader(head, texts, k, j);
      assert s[i] == TicksEvents(texts)[4 * k + j];
    }
  }

  /** Event j of tick k is not the header's write. */
  lemma TickEventNotHeader(head: string, texts: seq<string>, k: nat, j: nat)
    requires head != "" && head[0] == '{'
    requires k < |texts| && j < 4 && texts[k] != head
    ensures TicksEvents(texts)[4 * k + j] != Wrote(head)
  {
    TicksEventsAt(texts, k);
    var t := TicksEvents(texts);
    assert t[4 * k + j] == t[4 * k..4 * k + 4][j];
    if j == 0 {
      assert ","[0] != head[0];
    } else if j == 2 {
      assert "\n"[0] != head[0];
    }
  }

  /** The output with every newline removed: JSON ignores whitespace between values. */
  function RemoveNewlines(s: string): (r: string)
    ensures '\n' !in r
  {
    if s == [] then ""
    else RemoveNewlines(s[..|s| - 1]) + (if s[|s| - 1] == '\n' then "" else [s[|s| - 1]])
  }

  lemma {:induction false} RemoveNewlinesConcat(a: string, b: string)
    ensures RemoveNewlines(a + b) == RemoveNewlines(a) + RemoveNewlines(b)
    decreases |b|
  {
    if b == [] {
      assert a + b == a;
    } else {
      assert (a + b)[..|a + b| - 1] == a + b[..|b| - 1];
      RemoveNewlinesConcat(a, b[..|b| - 1]);
    }
  }

  lemma {:induction false} RemoveNewlinesPrintable(s: string)
    requires Printable(s)
    ensures RemoveNewlines(s) == s
    decreases |s|
  {
    if s != [] {
      assert IsPrintable(s[|s| - 1]);
      RemoveNewlinesPrintable(s[..|s| - 1]);
      assert s[..|s| - 1] + [s[|s| - 1]] == s;
    }
  }

  lemma {:induction false} PrefixedSnoc(parts: seq<string>, last: string, sep: string)
    ensures Prefixed(parts + [last], sep) == Prefixed(parts, sep) + sep + last
    decreases |parts|
  {
    if parts == [] {
      assert Prefixed([last], sep) == sep + last + Prefixed([], sep);
    } else {
      assert (parts + [last])[1..] == parts[1..] + [last];
      PrefixedSnoc(parts[1..], last, sep);
    }
  }

  /** One tick writes a comma, its text and a newline. */
  lemma TickText(frame: string)
    ensures OutputText(TickEvents(frame)) == "," + frame + "\n"
  {
    var one, two, three := [Wrote(",")], [Wrote(","), Wrote(frame)], [Wrote(","), Wrote(frame), Wrote("\n")];
    assert one[..0] == [] && two[..1] == one && three[..2] == two && TickEvents(frame)[..3] == three;
    assert OutputText(one) == ",";
    assert OutputText(two) == "," + frame;
    assert OutputText(three) == "," + frame + "\n";
  }

  /** Dropping the newlines of a tick whose text has none leaves the comma and the text. */
  lemma TickTextWithoutNewlines(frame: string)
    requires Printable(frame)
    ensures RemoveNewlines("," + frame + "\n") == "," + frame
  {
    RemoveNewlinesPrintable(frame);
    RemoveNewlinesConcat("," + frame, "\n");
    RemoveNewlinesConcat(",", frame);
    RemoveNewlinesChar(',');
    RemoveNewlinesChar('\n');
  }

  /** A single character is dropped exactly when it is a newline. */
  lemma RemoveNewlinesChar(c: char)
    ensures RemoveNewlines([c]) == if c == '\n' then "" else [c]
  {
    assert [c][..0] == "";
  }

  /** Ticks whose texts hold no newline write, newlines dropped, each text preceded by a comma. */
  lemma {:induction false} TicksTextIsPrefixed(texts: seq<string>)
    requires forall k | 0 <= k < |texts| :: Printable(texts[k])
    ensures RemoveNewlines(OutputText(TicksEvents(texts))) == Prefixed(texts, ",")
    decreases |texts|
  {
    if texts != [] {
      var n := |texts| - 1;
      var front, r := texts[..n], texts[n];
      assert texts == front + [r];
      var before := OutputText(TicksEvents(front));
      TicksTextIsPrefixed(front);
      OutputTextConcat(TicksEvents(front), TickEvents(r));
      TickText(r);
      RemoveNewlinesConcat(before, "," + r + "\n");
      TickTextWithoutNewlines(r);
      PrefixedSnoc(front, r, ",");
    }
  }

  /** The JSON values of the frames, in order. */
  function FramesJson(frames: seq<seq<Body>>): (r: seq<Json>)
    ensures |r| == |frames|
    ensures forall i | 0 <= i < |frames| :: r[i] == FrameJson(frames[i])
  {
    seq(|frames|, i requires 0 <= i < |frames| => FrameJson(frames[i]))
  }

  /** The array opening, newlines dropped. */
  lemma ArrayStartText()
    ensures RemoveNewlines(ArrayStart) == "[[]"
  {
    var s1, s2, s3, s4 := "\n", "\n[", "\n[[", "\n[[]";
    assert s1[..0] == "" && s2[..1] == s1 && s3[..2] == s2 && s4[..3] == s3 && ArrayStart[..4] == s4;
    assert RemoveNewlines(s1) == "";
    assert RemoveNewlines(s2) == "[";
    assert RemoveNewlines(s3) == "[[";
    assert RemoveNewlines(s4) == "[[]";
  }

  /**
   * What follows the header is a JSON array that never closes: with the
   * newlines dropped and a closing bracket added, it is exactly the JSON
   * array whose elements are an empty array followed by every tick's block
   * array.
   */
  lemma StreamIsJsonArray(frames: seq<seq<Body>>)
    ensures RemoveNewlines(ArrayStart + OutputText(TicksEvents(FrameTexts(frames)))) + "]"
      == Render(Array([Array([])] + FramesJson(frames)))
  {
    var texts := FrameTexts(frames);
    FrameTextsPrintable(frames);
    TicksTextIsPrefixed(texts);
    RemoveNewlinesConcat(ArrayStart, OutputText(TicksEvents(texts)));
    ArrayStartText();
    RenderFrames(frames);
  }

  lemma FrameTextsPrintable(frames: seq<seq<Body>>)
    ensures forall k | 0 <= k < |frames| :: Printable(FrameTexts(frames)[k])
  {
    forall k | 0 <= k < |frames| ensures Printable(FrameTexts(frames)[k]) {
      RenderPrintable(FrameJson(frames[k]));
    }
  }

  /** The closed array's text: the empty array, then each frame's text after a comma. */
  lemma RenderFrames(frames: seq<seq<Body>>)
    ensures Render(Array([Array([])] + FramesJson(frames))) == "[[]" + Prefixed(FrameTexts(frames), ",") + "]"
  {
    var items := [Array([])] + FramesJson(frames);
    var rendered := RenderAll(items);
    RenderedFrames(frames);
    JoinAsPrefixed(rendered, ",");
    RenderArray(items);
    AppendAssoc("[", "[]", Prefixed(FrameTexts(frames), ","));
  }

  /** The rendered items of the closed array: the empty array's text, then each frame's. */
  lemma RenderedFrames(frames: seq<seq<Body>>)
    ensures var rendered := RenderAll([Array([])] + FramesJson(frames));
      |rendered| == 1 + |frames| && rendered[0] == "[]" && rendered[1..] == FrameTexts(frames)
  {
    var items := [Array([])] + FramesJson(frames);
    var rendered := RenderAll(items);
    EmptyArrayText();
    forall k | 0 <= k < |frames| ensures rendered[1..][k] == FrameTexts(frames)[k] {
      assert items[k + 1] == FrameJson(frames[k]);
    }
  }

  /** The empty array that opens the stream is written `[]`. */
  lemma EmptyArrayText()
    ensures Render(Array([])) == "[]"
  {
    assert Join(RenderAll([]), ",") == "";
  }

  /** Standard output, as the sequence of events it has received. */
  class Stdout {
    var events: seq<Event>

    constructor()
      ensures events == []
    {
      events := [];
    }

    /** `write!` / `serde_json::to_writer`: the text is appended. */
    method Write(s: string)
      modifies this
      ensures events == old(events) + [Wrote(s)]
    {
      events := events + [Wrote(s)];
    }

    /** `stdout.flush()`. */
    method Flush()
      modifies this
      ensures events == old(events) + [Flushed]
    {
      events := events + [Flushed];
    }
  }

  /** What one turn of the loop reads from the outside world. */
  datatype Tick = Tick(active: Option<Player>, interfaces: seq<NetworkInterface>, localTime: LocalDateTime, sinceEpoch: Duration)

  /** The blocks built from each tick's readings. */
  function Frames(ticks: seq<Tick>): (r: seq<seq<Body>>)
    ensures |r| == |ticks|
    ensures forall i | 0 <= i < |ticks| :: r[i] == AssembleFrame(ticks[i].active, ticks[i].interfaces, ticks[i].localTime)
  {
    seq(|ticks|, i requires 0 <= i < |ticks| => AssembleFrame(ticks[i].active, ticks[i].interfaces, ticks[i].localTime))
  }

  lemma TicksEventsSnoc(texts: seq<string>, last: string)
    ensures TicksEvents(texts + [last]) == TicksEvents(texts) + TickEvents(last)
  {
    assert (texts + [last])[..|texts|] == texts;
  }

  lemma FramesSnoc(ticks: seq<Tick>, t: Tick)
    ensures Frames(ticks + [t]) == Frames(ticks) + [AssembleFrame(t.active, t.interfaces, t.localTime)]
  {
  }

  lemma FrameTextsSnoc(frames: seq<seq<Body>>, last: seq<Body>)
    ensures FrameTexts(frames + [last]) == FrameTexts(frames) + [Render(FrameJson(last))]
  {
  }

  /**
   * The wait computed at the end of each turn (src/main.rs:130-134): it
   * exists (the subtraction does not panic) and lies in [1 ns, 1 s].
   */
  method NextDelay(sinceEpoch: Duration) returns (delay: Duration)
    requires Valid(sinceEpoch)
    ensures DelayToNextSecond(sinceEpoch) == Some(delay)
    ensures 1 <= TotalNanos(delay) <= NanosPerSec
  {
    DelaySpec(sinceEpoch);
    delay := DelayToNextSecond(sinceEpoch).value;
  }

  /**
   * The output of one turn of the loop (src/main.rs:81-128): build the
   * blocks, then write a comma, the block array and a newline, and flush.
   */
  method EmitTick(out: Stdout, t: Tick)
    modifies out
    ensures out.events == old(out.events) + TickEvents(Render(FrameJson(AssembleFrame(t.active, t.interfaces, t.localTime))))
  {
    var body := BuildBody(t.active, t.interfaces, t.localTime);
    WriteTick(out, Render(FrameJson(body)));
  }

  /** The writes of one tick (src/main.rs:125-128): the comma, the block array's text, a newline, the flush. */
  method WriteTick(out: Stdout, frame: string)
    modifies out
    ensures out.events == old(out.events) + TickEvents(frame)
  {
    out.Write(",");
    out.Write(frame);
    out.Write("\n");
    out.Flush();
  }

  /** The texts of the first i + 1 ticks are those of the first i and then tick i's. */
  lemma FrameTextsStep(ticks: seq<Tick>, i: nat)
    requires i < |ticks|
    ensures FrameTexts(Frames(ticks[..i + 1]))
      == FrameTexts(Frames(ticks[..i])) + [Render(FrameJson(AssembleFrame(ticks[i].active, ticks[i].interfaces, ticks[i].localTime)))]
  {
    assert ticks[..i + 1] == ticks[..i] + [ticks[i]];
    FramesSnoc(ticks[..i], ticks[i]);
    FrameTextsSnoc(Frames(ticks[..i]), AssembleFrame(ticks[i].active, ticks[i].interfaces, ticks[i].localTime));
  }

  /** Writing one more tick's events after those of some texts is writing the events of the longer list. */
  lemma EventsStep(start: seq<Event>, texts: seq<string>, text: string)
    ensures start + TicksEvents(texts) + TickEvents(text) == start + TicksEvents(texts + [text])
  {
    TicksEventsSnoc(texts, text);
    AppendAssoc(start, TicksEvents(texts), TickEvents(text));
  }

  /** One turn of the loop extends the session by that tick's events. */
  lemma RunStep(start: seq<Event>, before: seq<Event>, after: seq<Event>, ticks: seq<Tick>, i: nat)
    requires i < |ticks|
    requires before == start + TicksEvents(FrameTexts(Frames(ticks[..i])))
    requires after == before + TickEvents(Render(FrameJson(AssembleFrame(ticks[i].active, ticks[i].interfaces, ticks[i].localTime))))
    ensures after == start + TicksEvents(FrameTexts(Frames(ticks[..i + 1])))
  {
    FrameTextsStep(ticks, i);
    EventsStep(start, FrameTexts(Frames(ticks[..i])), Render(FrameJson(AssembleFrame(ticks[i].active, ticks[i].interfaces, ticks[i].localTime))));
  }

  /**
   * One turn of the loop (src/main.rs:81-135): the session grows by tick i's
   * events, and the wait is the delay to the next whole second.
   */
  method Step(out: Stdout, ticks: seq<Tick>, i: nat, ghost start: seq<Event>) returns (delay: Duration)
    requires i < |ticks| && Valid(ticks[i].sinceEpoch)
    requires out.events == start + TicksEvents(FrameTexts(Frames(ticks[..i])))
    modifies out
    ensures out.events == start + TicksEvents(FrameTexts(Frames(ticks[..i + 1])))
    ensures DelayToNextSecond(ticks[i].sinceEpoch) == Some(delay)
  {
    ghost var before := out.events;
    EmitTick(out, ticks[i]);
    RunStep(start, before, out.events, ticks, i);
    delay := NextDelay(ticks[i].sinceEpoch);
  }

  /** The waits of the first i + 1 ticks are those of the first i and then tick i's. */
  lemma DelaysStep(ticks: seq<Tick>, delays: seq<Duration>, i: nat, d: Duration)
    requires i < |ticks| && |delays| == i
    requires forall k | 0 <= k < i :: DelayToNextSecond(ticks[k].sinceEpoch) == Some(delays[k])
    requires DelayToNextSecond(ticks[i].sinceEpoch) == Some(d)
    ensures forall k | 0 <= k < i + 1 :: DelayToNextSecond(ticks[k].sinceEpoch) == Some((delays + [d])[k])
  {
  }

  /** `serde_json::to_writer(&mut stdout, &header)` and `writeln!(stdout, "\n[[]")` (src/main.rs:71-79). */
  method WriteHeader(out: Stdout)
    modifies out
    ensures out.events == old(out.events) + HeaderEvents(MainHeaderLine)
  {
    var text := Render(HeaderJson(MainHeader));
    MainHeaderText();
    out.Write(text);
    out.Write(ArrayStart);
  }

  /**
   * `main`, run for the given ticks instead of forever: the header (whose
   * text MainHeaderText proves is MainHeaderLine) and the array opening,
   * then each tick's blocks, each followed by a flush. The waits are
   * returned instead of slept; each is the delay to the next whole second
   * after that tick's clock reading, which DelaySpec bounds.
   */
  method Run(out: Stdout, ticks: seq<Tick>) returns (delays: seq<Duration>)
    requires forall i | 0 <= i < |ticks| :: Valid(ticks[i].sinceEpoch)
    modifies out
    ensures out.events == old(out.events) + Session(MainHeaderLine, Frames(ticks))
    ensures |delays| == |ticks|
    ensures forall i | 0 <= i < |ticks| :: DelayToNextSecond(ticks[i].sinceEpoch) == Some(delays[i])
  {
    WriteHeader(out);
    ghost var start := out.events;
    delays := [];
    var i := 0;
    while i < |ticks|
      invariant 0 <= i <= |ticks|
      invariant out.events == start + TicksEvents(FrameTexts(Frames(ticks[..i])))
      invariant |delays| == i
      invariant forall k | 0 <= k < i :: DelayToNextSecond(ticks[k].sinceEpoch) == Some(delays[k])
    {
      var d := Step(out, ticks, i, start);
      DelaysStep(ticks, delays, i, d);
      delays := delays + [d];
      i := i + 1;
    }
    TakeAll(ticks);
    AppendAssoc(old(out.events), HeaderEvents(MainHeaderLine), TicksEvents(FrameTexts(Frames(ticks))));
  }
}
