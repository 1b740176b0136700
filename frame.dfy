/**
 * One tick's blocks (src/main.rs:81-123): the media block when a player and
 * its metadata were found, then the network block and the clock block.
 */
module Frame {

  import opened Options
  import opened Text
  import opened Json
  import opened Protocol
  import opened Network
  import opened Clock

  const MediaColor: string := "#97a891"
  const NetworkColor: string := "#91a4a8"
  const SeparatorWidth: u32 := 20

  /** The metadata mpris returns: only the title is used. */
  datatype Metadata = Metadata(title: Option<string>)

  /** An active player as `find_active` returns it, with the outcome of its `get_metadata` (None on error). */
  datatype Player = Player(metadata: Option<Metadata>)

  /**
   * `find_active().ok().and_then(get_metadata().ok())` followed by the title:
   * None when either call failed, else the title, itself possibly unset.
   */
  function MediaTitle(active: Option<Player>): Option<Option<string>> {
    match active
    case None => None
    case Some(p) =>
      match p.metadata
      case None => None
      case Some(m) => Some(m.title)
  }

  /** The media block: the title (empty when unset), the media colour, width 20. */
  function MediaBlock(title: Option<string>): Body {
    DefaultBody().(fullText := title.GetOr(""), color := Some(MediaColor), separatorBlockWidth := Some(SeparatorWidth))
  }

  /** The network block: the addresses joined by single spaces, the network colour, width 20. */
  function NetworkBlock(addrs: seq<string>): Body {
    DefaultBody().(fullText := Join(addrs, " "), color := Some(NetworkColor), separatorBlockWidth := Some(SeparatorWidth))
  }

  /** The clock block: the formatted time, width 20, no colour. */
  function ClockBlock(time: string): Body {
    DefaultBody().(fullText := time, separatorBlockWidth := Some(SeparatorWidth))
  }

  /** The media block writes its text, the media colour and width 20, and no other key. */
  lemma MediaBlockEntries(title: Option<string>)
    ensures BodyEntries(MediaBlock(title)) ==
      [Entry(FullText, Str(title.GetOr(""))), Entry(Color, Str(MediaColor)), Entry(SeparatorBlockWidth, Num(20))]
  {
    ColoredBlockEntries(title.GetOr(""), MediaColor);
  }

  /** The network block writes the joined addresses, the network colour and width 20, and no other key. */
  lemma NetworkBlockEntries(addrs: seq<string>)
    ensures BodyEntries(NetworkBlock(addrs)) ==
      [Entry(FullText, Str(Join(addrs, " "))), Entry(Color, Str(NetworkColor)), Entry(SeparatorBlockWidth, Num(20))]
  {
    ColoredBlockEntries(Join(addrs, " "), NetworkColor);
  }

  /** A block with a text, a colour and width 20 writes those three keys and no other. */
  lemma ColoredBlockEntries(text: string, color: string)
    ensures BodyEntries(DefaultBody().(fullText := text, color := Some(color), separatorBlockWidth := Some(SeparatorWidth))) ==
      [Entry(FullText, Str(text)), Entry(Color, Str(color)), Entry(SeparatorBlockWidth, Num(20))]
  {
    PlainBlockEntries(DefaultBody().(fullText := text, color := Some(color), separatorBlockWidth := Some(SeparatorWidth)));
  }

  /** The clock block writes the time and width 20, and no colour or other key. */
  lemma ClockBlockEntries(time: string)
    ensures BodyEntries(ClockBlock(time)) == [Entry(FullText, Str(time)), Entry(SeparatorBlockWidth, Num(20))]
  {
    PlainBlockEntries(ClockBlock(time));
  }

  /**
   * The blocks of one tick. Three (media, network, clock) when both
   * `find_active` and `get_metadata` succeed, two (network, clock) otherwise:
   * a missing media block is left out, not replaced by an empty one.
   */
  function AssembleFrame(active: Option<Player>, ifaces: seq<NetworkInterface>, time: LocalDateTime): (r: seq<Body>)
    ensures |r| == 3 <==> active.Some? && active.value.metadata.Some?
    ensures |r| == 2 || |r| == 3
    ensures |r| == 3 ==> r[0] == MediaBlock(active.value.metadata.value.title)
    ensures r[|r| - 2] == NetworkBlock(AddressTexts(ifaces))
    ensures r[|r| - 1] == ClockBlock(Format(time))
  {
    var media := match MediaTitle(active)
      case Some(title) => [MediaBlock(title)]
      case None => [];
    media + [NetworkBlock(AddressTexts(ifaces)), ClockBlock(Format(time))]
  }

  /**
   * The loop body's construction of `body` (src/main.rs:81-123): start from
   * the media block or an empty vector, then push the network and clock blocks.
   */
  method BuildBody(active: Option<Player>, ifaces: seq<NetworkInterface>, time: LocalDateTime) returns (body: seq<Body>)
    ensures body == AssembleFrame(active, ifaces, time)
  {
    body := [];
    var title := MediaTitle(active);
    if title.Some? {
      body := [MediaBlock(title.value)];
    }
    var ips := AddressTexts(ifaces);
    body := body + [NetworkBlock(ips)];
    body := body + [ClockBlock(Format(time))];
  }

  /** The JSON array serde_json writes for a tick's blocks. */
  function FrameJson(frame: seq<Body>): (j: Json)
    ensures j.Array? && |j.items| == |frame|
    ensures forall i | 0 <= i < |frame| :: j.items[i] == BodyJson(frame[i])
  {
    Array(seq(|frame|, i requires 0 <= i < |frame| => BodyJson(frame[i])))
  }

  /**
   * The network block's text is empty exactly when no address is shown, and
   * otherwise splits at its spaces back into the shown addresses' texts.
   */
  lemma NetworkTextSplits(ifaces: seq<NetworkInterface>)
    ensures var text := NetworkBlock(AddressTexts(ifaces)).fullText;
      (text == "" <==> ShownAddresses(ifaces) == [])
      && (ShownAddresses(ifaces) != [] ==> Split(text, ' ') == AddressTexts(ifaces))
  {
    var texts := AddressTexts(ifaces);
    var text := NetworkBlock(texts).fullText;
    assert text == Join(texts, " ");
    if texts != [] {
      forall k | 0 <= k < |texts| ensures ' ' !in texts[k] {
        AddrTextChars(ShownAddresses(ifaces)[k]);
      }
      AddrTextChars(ShownAddresses(ifaces)[0]);
      JoinAsPrefixed(texts, " ");
      assert |text| >= |texts[0]| > 0;
      SplitJoin(texts, ' ');
    }
  }
}
