# anlumo-bar status line, modelled in Dafny

`src/main.rs` is a status-line generator for the i3bar/swaybar JSON
protocol. At start-up it writes a header object (`{"version":1}`) and then
opens a JSON array that never closes (`"\n[[]\n"`). Once per second it then
writes one element of that array: a comma, an array of blocks, a newline, and
a flush. Each array of blocks holds three blocks, or two when no media
player answers:

- the title of the playing media, when a player and its metadata are found;
- the machine's addresses, with loopback and `fe80` IPv6 removed, joined by spaces;
- the local date and time as `YYYY-MM-DD HH:MM:SS`.

After each write the program sleeps until the next whole second.

The model covers the deterministic logic between the library calls. The
modules are:

- `Protocol`: the `Header`, `IntegerOrString` and `Body` records. Their serde
  `Serialize` derivations are modelled as a walk over a field table that
  skips `None` fields (and `click_events` when false).
- `Json`: the compact text serde_json writes, including its string escaping,
  with a decoder that reads an escaped string back.
- `Network`: the address filter, and Rust's `Display` for IPv4 and IPv6
  (sections 4 and 5 of RFC 5952).
- `Frame`: the three kinds of block and how one tick's blocks are put together.
- `Clock`: chrono's `%F %T`, computed from the date and time fields.
- `Schedule`: `Duration` arithmetic and the wait until the next second.
- `Stream`: standard output as a class holding the log of writes and
  flushes, and `main` run over a finite list of ticks.
- `Text`, `Options`, `Sequences`: digits, padding, hexadecimal, join and
  split, and small sequence facts.

## Model

| member | source | states |
|---|---|---|
| Protocol.EmittedIsUnskippedWithoutNulls | src/main.rs:31-66 | when a struct skips exactly the fields that would be `null`, what it writes equals writing every field and then deleting the `null` pairs |
| Protocol.EmittedKeysInOrder | src/main.rs:12-66 | the written keys are the declared keys with some left out, in declaration order |
| Protocol.LookupEmitted | src/main.rs:31-66 | with distinct keys, looking up a field's key in the written pairs gives the field's value, or nothing when the field is skipped |
| Protocol.HeaderFields | src/main.rs:12-21 | the header's fields are `version`, `click_events`, `cont_signal`, `stop_signal`, in that order, all distinct |
| Protocol.HeaderEntries | src/main.rs:12-21 | the header always writes `version` first, with its value; it writes `click_events` exactly when true, as `true`; it writes each signal exactly when set, with the signal's own number; it never writes `null`; keys are in declaration order |
| Protocol.MainHeaderEntries | src/main.rs:71-76 | the header built in `main` writes the single pair `version: 1` |
| Protocol.MainHeaderObject | src/main.rs:71-78 | that header serialises to the object with the single member `"version": 1` |
| Protocol.MainHeaderText | src/main.rs:71-78 | the header built in `main` is written as exactly `{"version":1}` |
| Protocol.HeaderKeyNamePlain | src/main.rs:13-20 | no header key name needs JSON escaping |
| Protocol.BodyKeyNamePlain | src/main.rs:32-65 | no block key name needs JSON escaping |
| Protocol.BodyKeyText | src/main.rs:32-65 | every block key is written as its name between double quotes, unchanged |
| Protocol.MinWidthJson | src/main.rs:23-29 | the untagged `min_width` is a bare string exactly for `String` and a bare number exactly for `Integer`, and reading it back gives the same variant |
| Protocol.FieldValue | src/main.rs:31-66 | a block field that is set never has the value `null` |
| Protocol.BodyFields | src/main.rs:31-66 | a block's fields come in declaration order with distinct keys; each field is skipped exactly when the block's field is `None`, and otherwise carries that field's value; skipped fields are exactly the `null` ones |
| Protocol.BodyEntries | src/main.rs:31-66 | a block's pairs are all its fields with the `None` ones removed; `full_text` is always written first; no `null` is written; keys are in declaration order |
| Protocol.BodyFieldWritten | src/main.rs:31-66 | for every key, the key appears in a block's object exactly when its field is set, and then with that field's value |
| Protocol.PlainBlockEntries | src/main.rs:86-91 | a block that sets only `full_text`, `color` and `separator_block_width` writes `full_text`, then `color` when set, then `separator_block_width` when set, and nothing else |
| Protocol.EmittedThreeOf | src/main.rs:31-66 | a field table in which only fields 1, 3 and 16 (`full_text`, `color`, `separator_block_width`) may be written writes just those fields, in that order |
| Json.EscapeChar | src/main.rs:126 | a character is written as itself exactly when it is printable and is neither `"` nor `\`; any other character becomes an escape that starts with a backslash |
| Json.Escape | src/main.rs:126 | escaped text contains no control character |
| Json.EscapePlain | src/main.rs:126 | text with nothing to escape is written unchanged |
| Json.UnescapeEscape | src/main.rs:126 | escaping loses nothing: an escaped string reads back as the original |
| Json.QuoteUnescape | src/main.rs:126 | a quoted string literal, read between its quotes, gives back the original string |
| Json.Render | src/main.rs:126 | rendered text is never empty, and its first character shows the kind of value: `{` for an object, `[` for an array, `"` for a string, a digit for a number |
| Json.RenderPrintable | src/main.rs:126-127 | no rendered value contains a control character, newlines included, so each tick fits on one line |
| Network.ShownAddressesIsFilter | src/main.rs:99-111 | filtering each interface and then flattening gives the same list as flattening and then filtering |
| Network.FilterSpec | src/main.rs:105-108 | the filter keeps each shown address as often as it occurs, drops every other address, and keeps the original order |
| Network.ShownAddressesSpec | src/main.rs:99-111 | an address is shown exactly when some interface has it and it is neither 127.0.0.0/8, nor `::1`, nor IPv6 with first segment `fe80`; its count is kept and interface order is kept |
| Network.AddrTextChars | src/main.rs:109 | an address's text is non-empty and contains only hex digits, dots and colons, and so no space |
| Network.V4TextRoundTrip | src/main.rs:109 | an IPv4 address's text splits at the dots into four decimal numbers that read back as its octets |
| Frame.MediaBlockEntries | src/main.rs:86-91 | the media block writes only the title (`""` when unset), colour `#97a891` and width 20 |
| Frame.NetworkBlockEntries | src/main.rs:113-118 | the network block writes only the addresses joined by single spaces, colour `#91a4a8` and width 20 |
| Frame.ClockBlockEntries | src/main.rs:119-123 | the clock block writes only the time and width 20, with no colour |
| Frame.AssembleFrame | src/main.rs:81-123 | a tick has three blocks exactly when both the player and its metadata are found, and two otherwise; the media block comes first when present; the network block is second to last; the clock block is last |
| Frame.BuildBody | src/main.rs:81-123 | the loop's push sequence builds exactly the blocks of `AssembleFrame` |
| Frame.NetworkTextSplits | src/main.rs:109-114 | the network text is empty exactly when no address is shown; otherwise it splits at its spaces back into the shown addresses' texts |
| Clock.YearTextInRange | src/main.rs:120 | a year from 0 to 9999 is written as exactly four digits with no sign, and they read back as the year |
| Clock.FormatShape | src/main.rs:120 | for a calendar time in years 0 to 9999, `%F %T` has the shape `YYYY-MM-DD HH:MM:SS`, and each digit group reads back as its field |
| Schedule.NewDuration | src/main.rs:133-134 | `Duration::new` carries whole seconds out of the nanosecond part and keeps the total |
| Schedule.CheckedSub | src/main.rs:133-134 | the subtraction is defined exactly when it would not be negative, and then equals the difference of the totals |
| Schedule.DelaySpec | src/main.rs:130-134 | the subtraction never panics; the wait is 1 s minus the sub-second nanoseconds; it lies in [1 ns, 1 s]; it ends exactly at the next whole second; and at a whole second it is a full 1 s |
| Stream.TicksEvents | src/main.rs:125-128 | each tick adds exactly four events |
| Stream.TicksEventsAt | src/main.rs:125-128 | tick k's events sit at positions 4k to 4k+3 of the tick events |
| Stream.SessionLayout | src/main.rs:78-128 | the header is written first and never again; the array opening comes second; tick k's comma, blocks, newline and flush sit at positions 2+4k to 5+4k |
| Stream.TickText | src/main.rs:125-127 | one tick's output text is a comma, the block array's text and a newline |
| Stream.TicksTextIsPrefixed | src/main.rs:125-127 | with newlines removed, the ticks' output is each block array's text preceded by a comma |
| Stream.StreamIsJsonArray | src/main.rs:79-127 | after the header, the output with newlines removed and a closing `]` added is exactly the JSON array of an empty array followed by every tick's block array |
| Stream.Stdout.constructor | src/main.rs:77 | standard output starts with nothing written |
| Stream.Stdout.Write | src/main.rs:125-127 | a write appends its text to the log |
| Stream.Stdout.Flush | src/main.rs:128 | a flush appends a flush event to the log |
| Stream.NextDelay | src/main.rs:130-134 | the wait at the end of a turn exists and lies between 1 ns and 1 s |
| Stream.WriteTick | src/main.rs:125-128 | a turn's writes append a comma, the block array's text, a newline and a flush |
| Stream.EmitTick | src/main.rs:81-128 | one turn appends that tick's four events for the blocks of `AssembleFrame` |
| Stream.Step | src/main.rs:80-135 | after turn i, the log holds the events of the first i+1 ticks, and the wait is that tick's delay to the next second |
| Stream.WriteHeader | src/main.rs:71-79 | start-up writes the header text and then the array opening |
| Stream.Run | src/main.rs:68-137 | for any list of ticks, the log ends up holding the header, the array opening and each tick's events in order; one wait is returned per tick, each the delay to the next whole second after that tick's clock reading |

## Left out

- The mpris player lookup over D-Bus (src/main.rs:70, 81-84) is a call into a library the model cannot see. Its outcome is an input to each tick: no player, or a player whose metadata lookup failed or gave a title, possibly unset.
- `pnet::datalink::interfaces()` (src/main.rs:96) enumerates the operating system's interfaces. The list of interfaces and their addresses is an input to each tick.
- `Local::now()` and the time zone conversion (src/main.rs:120) read the clock. The date and time fields are an input; only the formatting is modelled.
- `SystemTime::now().duration_since(UNIX_EPOCH)` (src/main.rs:130-132) is an input `Duration`. Its `unwrap` panic, for a clock set before 1970, is not modelled.
- `tokio::time::sleep` (src/main.rs:135) is not performed: `Run` returns the waits it would sleep.
- The endless `loop` (src/main.rs:80-136) is modelled as `Run` over a finite list of ticks. Every finite prefix of the real output is covered.
- `io::Result` errors from writes and flushes (the `?` at src/main.rs:78-79, 125-128) are not modelled: every write succeeds. Locking stdout is not modelled either.
- The `PlayerFinder::new().unwrap()` panic (src/main.rs:70) is not modelled.
- `Stream.Stdout.Write`: the log records one event per write call. It does not model how the bytes are buffered; `OutputText` gives the resulting byte stream.
- `Json.Unescape` rejects `\u` escapes in the surrogate range instead of pairing them. serde_json never writes such escapes for this program's strings, so the round trip is unaffected.
- `Clock.FormatShape` covers years 0 to 9999 only. `Clock.YearText` writes other years with a sign, as chrono does, but chrono's own year limits are not modelled.
- Rust's `u32` is a subtype of `nat` bounded by 2^32. `u64` seconds since the epoch are an unbounded `nat`, since no arithmetic on them can overflow here.
- The comment at src/main.rs:98 says only IPv4 addresses are kept. The code also keeps IPv6 addresses that are not loopback and whose first segment is not `fe80`, and the model follows the code. That `fe80` test is narrower than the whole fe80::/10 link-local range, and the model keeps it exactly as written.
- src/main.rs has no clamp on the wait. `Schedule.DelaySpec` shows none is needed, since the wait is never below 1 ns.
