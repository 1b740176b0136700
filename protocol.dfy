/**
 * The i3bar/swaybar protocol records of src/main.rs (`Header`,
 * `IntegerOrString`, `Body`) and what serde's derived `Serialize` makes of them.
 *
 * A derived serialiser walks the struct's fields in declaration order and, for
 * each field, either writes `"key":value` or, when the field's
 * `skip_serializing_if` test holds, writes nothing. That walk is modelled
 * generically by a field table (`Field`) and `Emitted`.
 */
module Protocol {

  import opened Options
  import opened Text
  import opened Json
  import opened Sequences

  /** Rust's `u32`. */
  type u32 = n: nat | n < 0x1_0000_0000

  /** One struct field as the derived serialiser sees it: its key, its JSON value, and whether it is skipped. */
  datatype Field<K> = Field(key: K, value: Json, skip: bool)

  /** One `"key":value` pair actually written. */
  datatype Entry<K> = Entry(key: K, value: Json)

  /** The pairs written for a field table: the fields that are not skipped, in table order. */
  function Emitted<K>(fs: seq<Field<K>>): seq<Entry<K>> {
    if fs == [] then []
    else (if fs[0].skip then [] else [Entry(fs[0].key, fs[0].value)]) + Emitted(fs[1..])
  }

  /** The pairs serde would write with no `skip_serializing_if` at all. */
  function Unskipped<K>(fs: seq<Field<K>>): (r: seq<Entry<K>>)
    ensures |r| == |fs| && forall i | 0 <= i < |fs| :: r[i] == Entry(fs[i].key, fs[i].value)
  {
    seq(|fs|, i requires 0 <= i < |fs| => Entry(fs[i].key, fs[i].value))
  }

  function DropNulls<K>(es: seq<Entry<K>>): seq<Entry<K>> {
    if es == [] then []
    else (if es[0].value == Null then [] else [es[0]]) + DropNulls(es[1..])
  }

  /** The keys of a list of pairs; the keys of a table are those of `Unskipped`. */
  function Keys<K>(es: seq<Entry<K>>): (r: seq<K>)
    ensures |r| == |es| && forall i | 0 <= i < |es| :: r[i] == es[i].key
  {
    seq(|es|, i requires 0 <= i < |es| => es[i].key)
  }

  predicate NoNulls<K>(es: seq<Entry<K>>) {
    forall i | 0 <= i < |es| :: es[i].value != Null
  }

  /** A table whose every skipped field holds `null`, and only those. */
  predicate SkipsExactlyNulls<K>(fs: seq<Field<K>>) {
    forall i | 0 <= i < |fs| :: fs[i].skip <==> fs[i].value == Null
  }

  /**
   * When a table skips exactly its null fields, skipping is the same as
   * writing every field and then deleting the `null` pairs.
   */
  lemma {:induction false} EmittedIsUnskippedWithoutNulls<K>(fs: seq<Field<K>>)
    requires SkipsExactlyNulls(fs)
    ensures Emitted(fs) == DropNulls(Unskipped(fs))
  {
    if fs != [] {
      EmittedIsUnskippedWithoutNulls(fs[1..]);
      assert Unskipped(fs)[1..] == Unskipped(fs[1..]);
    }
  }

  /** The written keys are the table's keys with some removed, order kept. */
  lemma {:induction false} EmittedKeysInOrder<K>(fs: seq<Field<K>>)
    ensures IsSubsequence(Keys(Emitted(fs)), Keys(Unskipped(fs)))
  {
    if fs != [] {
      EmittedKeysInOrder(fs[1..]);
      var rest := Emitted(fs[1..]);
      assert Keys(Unskipped(fs))[1..] == Keys(Unskipped(fs[1..]));
      if fs[0].skip {
        assert Emitted(fs) == rest;
        SubsequenceOfTail(Keys(rest), Keys(Unskipped(fs)));
      } else {
        assert Emitted(fs) == [Entry(fs[0].key, fs[0].value)] + rest;
        assert Keys(Emitted(fs))[1..] == Keys(rest);
      }
    }
  }

  /** The value written under key `k`: the first pair with that key, if any. */
  function Lookup<K(==)>(es: seq<Entry<K>>, k: K): Option<Json> {
    if es == [] then None
    else if es[0].key == k then Some(es[0].value)
    else Lookup(es[1..], k)
  }

  lemma {:induction false} LookupIffKey<K>(es: seq<Entry<K>>, k: K)
    ensures Lookup(es, k).Some? <==> k in Keys(es)
  {
    if es != [] {
      LookupIffKey(es[1..], k);
      assert Keys(es) == [es[0].key] + Keys(es[1..]);
    }
  }

  lemma {:induction false} EmittedConcat<K>(a: seq<Field<K>>, b: seq<Field<K>>)
    ensures Emitted(a + b) == Emitted(a) + Emitted(b)
  {
    if a == [] {
      assert a + b == b;
    } else {
      assert (a + b)[0] == a[0];
      assert (a + b)[1..] == a[1..] + b;
      EmittedConcat(a[1..], b);
      var h := EmittedOne(a[0]);
      assert Emitted(a + b) == h + (Emitted(a[1..]) + Emitted(b));
      AppendAssoc(h, Emitted(a[1..]), Emitted(b));
    }
  }

  lemma EmittedSingleton<K>(f: Field<K>)
    ensures Emitted([f]) == if f.skip then [] else [Entry(f.key, f.value)]
  {
    assert [f][1..] == [];
  }

  /** One step of `Emitted`, stated on the first pair and the rest. */
  lemma EmittedUnfold<K>(fs: seq<Field<K>>)
    requires fs != []
    ensures fs[0].skip ==> Emitted(fs) == Emitted(fs[1..])
    ensures !fs[0].skip ==>
      (Emitted(fs) != [] && Emitted(fs)[0] == Entry(fs[0].key, fs[0].value) && Emitted(fs)[1..] == Emitted(fs[1..]))
  {
  }

  predicate DistinctKeys<K(==)>(fs: seq<Field<K>>) {
    forall i, j | 0 <= i < j < |fs| :: fs[i].key != fs[j].key
  }

  lemma {:induction false} LookupMissing<K>(fs: seq<Field<K>>, k: K)
    requires forall i | 0 <= i < |fs| :: fs[i].key != k
    ensures Lookup(Emitted(fs), k) == None
  {
    if fs != [] {
      LookupMissing(fs[1..], k);
      EmittedUnfold(fs);
    }
  }

  /**
   * In a table with distinct keys, reading the written pairs at a field's key
   * gives the field's value, or nothing when the field is skipped.
   */
  lemma {:induction false} LookupEmitted<K>(fs: seq<Field<K>>, i: nat)
    requires DistinctKeys(fs) && i < |fs|
    ensures Lookup(Emitted(fs), fs[i].key) == if fs[i].skip then None else Some(fs[i].value)
  {
    var k := fs[i].key;
    EmittedUnfold(fs);
    if i == 0 {
      LookupMissing(fs[1..], k);
    } else {
      LookupEmitted(fs[1..], i - 1);
      assert fs[1..][i - 1] == fs[i];
    }
  }

  lemma {:induction false} EmittedNoNulls<K>(fs: seq<Field<K>>)
    requires forall i | 0 <= i < |fs| :: !fs[i].skip ==> fs[i].value != Null
    ensures NoNulls(Emitted(fs))
  {
    if fs != [] {
      EmittedNoNulls(fs[1..]);
      var head: seq<Entry<K>> := if fs[0].skip then [] else [Entry(fs[0].key, fs[0].value)];
      var rest := Emitted(fs[1..]);
      forall i | 0 <= i < |head + rest| ensures (head + rest)[i].value != Null {
        if i >= |head| {
          assert (head + rest)[i] == rest[i - |head|];
        }
      }
    }
  }

  /** The JSON object made of the written pairs, keys spelled by `name`. */
  function ToObject<K>(es: seq<Entry<K>>, name: K -> string): (j: Json)
    ensures j.Object? && |j.members| == |es|
    ensures forall i | 0 <= i < |es| :: j.members[i] == Member(name(es[i].key), es[i].value)
  {
    Object(seq(|es|, i requires 0 <= i < |es| => Member(name(es[i].key), es[i].value)))
  }

  function OrNull(o: Option<Json>): Json {
    match o
    case Some(v) => v
    case None => Null
  }

  function OptStr(o: Option<string>): Option<Json> {
    match o
    case Some(s) => Some(Str(s))
    case None => None
  }

  function OptNum(o: Option<u32>): Option<Json> {
    match o
    case Some(n) => Some(Num(n))
    case None => None
  }

  function OptBool(o: Option<bool>): Option<Json> {
    match o
    case Some(b) => Some(Bool(b))
    case None => None
  }

  /** A field with `skip_serializing_if = "Option::is_none"`. */
  function OptField<K>(key: K, o: Option<Json>): Field<K> {
    Field(key, OrNull(o), o.None?)
  }

  // ---------------------------------------------------------------- Header

  datatype Header = Header(version: u32, clickEvents: bool, contSignal: Option<u32>, stopSignal: Option<u32>)

  /** The header `main` writes: version 1, no click events, no signals. */
  const MainHeader: Header := Header(1, false, None, None)

  datatype HeaderKey = Version | ClickEvents | ContSignal | StopSignal

  const HeaderKeyOrder: seq<HeaderKey> := [Version, ClickEvents, ContSignal, StopSignal]

  function HeaderKeyName(k: HeaderKey): string {
    match k
    case Version => "version"
    case ClickEvents => "click_events"
    case ContSignal => "cont_signal"
    case StopSignal => "stop_signal"
  }

  /** How the derived serialiser treats each header field: `click_events` is skipped when false, the signals when `None`. */
  function HeaderField(h: Header, k: HeaderKey): (f: Field<HeaderKey>)
    ensures f.key == k
  {
    match k
    case Version => Field(Version, Num(h.version), false)
    case ClickEvents => Field(ClickEvents, Bool(h.clickEvents), !h.clickEvents)
    case ContSignal => OptField(ContSignal, OptNum(h.contSignal))
    case StopSignal => OptField(StopSignal, OptNum(h.stopSignal))
  }

  /** The header's fields in declaration order. */
  function HeaderFields(h: Header): (fs: seq<Field<HeaderKey>>)
    ensures Keys(Unskipped(fs)) == HeaderKeyOrder
    ensures DistinctKeys(fs)
  {
    seq(|HeaderKeyOrder|, i requires 0 <= i < |HeaderKeyOrder| => HeaderField(h, HeaderKeyOrder[i]))
  }

  /** The pairs written for a header. */
  function HeaderEntries(h: Header): (r: seq<Entry<HeaderKey>>)
    ensures |r| > 0 && r[0] == Entry(Version, Num(h.version))
    ensures ClickEvents in Keys(r) <==> h.clickEvents
    ensures ContSignal in Keys(r) <==> h.contSignal.Some?
    ensures StopSignal in Keys(r) <==> h.stopSignal.Some?
    ensures Lookup(r, ClickEvents) == (if h.clickEvents then Some(Bool(true)) else None)
    ensures Lookup(r, ContSignal) == OptNum(h.contSignal)
    ensures Lookup(r, StopSignal) == OptNum(h.stopSignal)
    ensures NoNulls(r)
    ensures IsSubsequence(Keys(r), HeaderKeyOrder)
  {
    var fs := HeaderFields(h);
    EmittedKeysInOrder(fs);
    EmittedNoNulls(fs);
    LookupEmitted(fs, 1);
    LookupEmitted(fs, 2);
    LookupEmitted(fs, 3);
    LookupIffKey(Emitted(fs), ClickEvents);
    LookupIffKey(Emitted(fs), ContSignal);
    LookupIffKey(Emitted(fs), StopSignal);
    assert fs == [fs[0]] + fs[1..];
    Emitted(fs)
  }

  function HeaderJson(h: Header): Json {
    ToObject(HeaderEntries(h), HeaderKeyName)
  }

  /** The text of the header `main` sends. */
  const MainHeaderLine: string := "{\"version\":1}"

  /** The header as built in `main` is written as exactly `{"version":1}`. */
  lemma MainHeaderText()
    ensures Render(HeaderJson(MainHeader)) == MainHeaderLine
  {
    MainHeaderObject();
    VersionObjectText();
  }

  /** The header `main` writes is the object with the single member `version: 1`. */
  lemma MainHeaderObject()
    ensures HeaderJson(MainHeader) == Object([Member("version", Num(1))])
  {
    MainHeaderEntries();
    var j := ToObject(HeaderEntries(MainHeader), HeaderKeyName);
    assert j.members[0] == Member(HeaderKeyName(Version), Num(1));
    assert HeaderKeyName(Version) == "version";
  }

  /** The text of the object with the single member `version: 1`. */
  lemma VersionObjectText()
    ensures Render(Object([Member("version", Num(1))])) == MainHeaderLine
  {
    RenderSingleMember("version", Num(1));
    VersionKeyText();
    assert Render(Num(1)) == "1" by {
      assert NatText(1) == "1";
    }
    VersionLine();
  }

  /** The pieces of the header object, concatenated, spell out the header line. */
  lemma VersionLine()
    ensures "{" + "\"version\"" + ":" + "1" + "}" == MainHeaderLine
  {
  }

  /** The key `version` is written quoted, with nothing escaped. */
  lemma VersionKeyText()
    ensures Quote("version") == "\"version\""
  {
    HeaderKeyNamePlain(Version);
    EscapePlain("version");
  }

  /** Key names are lower-case letters and underscores, which JSON writes unescaped. */
  lemma HeaderKeyNamePlain(k: HeaderKey)
    ensures NeedsNoEscape(HeaderKeyName(k))
  {
    var s := HeaderKeyName(k);
    forall i | 0 <= i < |s| ensures IsPrintable(s[i]) && s[i] != '"' && s[i] != '\\' {
      assert 'a' <= s[i] <= 'z' || s[i] == '_';
    }
  }

  lemma MainHeaderEntries()
    ensures HeaderEntries(MainHeader) == [Entry(Version, Num(1))]
  {
    var fs := HeaderFields(MainHeader);
    assert fs == [fs[0]] + [fs[1]] + [fs[2]] + [fs[3]];
    EmittedConcat([fs[0]], [fs[1]]);
    EmittedConcat([fs[0]] + [fs[1]], [fs[2]]);
    EmittedConcat([fs[0]] + [fs[1]] + [fs[2]], [fs[3]]);
    EmittedSingleton(fs[0]);
    EmittedSingleton(fs[1]);
    EmittedSingleton(fs[2]);
    EmittedSingleton(fs[3]);
  }

  // ---------------------------------------------------------------- IntegerOrString

  /** `min_width`: serde's `untagged` writes the payload with no tag around it. */
  datatype IntegerOrString = Integer(n: u32) | String(s: string)

  function MinWidthJson(v: IntegerOrString): (j: Json)
    ensures DecodeUntagged(j) == Some(v)
    ensures Render(j)[0] == '"' <==> v.String?
    ensures IsDigit(Render(j)[0]) <==> v.Integer?
  {
    match v
    case Integer(n) => Num(n)
    case String(s) => Str(s)
  }

  /**
   * What a consumer reading the untagged form gets back: serde tries the
   * variants in declaration order, so a number in `u32` range is an
   * `Integer` and a string is a `String`.
   */
  function DecodeUntagged(j: Json): Option<IntegerOrString> {
    match j
    case Num(n) => if n < 0x1_0000_0000 then Some(Integer(n)) else None
    case Str(s) => Some(String(s))
    case _ => None
  }

  // ---------------------------------------------------------------- Body

  datatype Body = Body(
    fullText: string,
    shortText: Option<string>,
    color: Option<string>,
    background: Option<string>,
    border: Option<string>,
    borderTop: Option<u32>,
    borderBottom: Option<u32>,
    borderLeft: Option<u32>,
    borderRight: Option<u32>,
    minWidth: Option<IntegerOrString>,
    align: Option<string>,
    name: Option<string>,
    instance: Option<string>,
    urgent: Option<bool>,
    separator: Option<bool>,
    separatorBlockWidth: Option<u32>,
    markup: Option<string>)

  /** `Body::default()`: empty text, every hint unset. */
  function DefaultBody(): Body {
    Body("", None, None, None, None, None, None, None, None, None, None, None, None, None, None, None, None)
  }

  datatype BodyKey =
    | FullText | ShortText | Color | Background | Border
    | BorderTop | BorderBottom | BorderLeft | BorderRight
    | MinWidth | Align | Name | Instance | Urgent | Separator
    | SeparatorBlockWidth | Markup

  /** The declaration order of `Body`'s fields. */
  const BodyKeyOrder: seq<BodyKey> := [
    FullText, ShortText, Color, Background, Border,
    BorderTop, BorderBottom, BorderLeft, BorderRight,
    MinWidth, Align, Name, Instance, Urgent, Separator,
    SeparatorBlockWidth, Markup]

  function BodyKeyName(k: BodyKey): string {
    match k
    case FullText => "full_text"
    case ShortText => "short_text"
    case Color => "color"
    case Background => "background"
    case Border => "border"
    case BorderTop => "border_top"
    case BorderBottom => "border_bottom"
    case BorderLeft => "border_left"
    case BorderRight => "border_right"
    case MinWidth => "min_width"
    case Align => "align"
    case Name => "name"
    case Instance => "instance"
    case Urgent => "urgent"
    case Separator => "separator"
    case SeparatorBlockWidth => "separator_block_width"
    case Markup => "markup"
  }

  function OptMinWidth(o: Option<IntegerOrString>): Option<Json> {
    match o
    case Some(v) => Some(MinWidthJson(v))
    case None => None
  }

  /** The value of a block's field, if set (`full_text` always is). */
  function FieldValue(b: Body, k: BodyKey): (r: Option<Json>)
    ensures r.Some? ==> r.value != Null
  {
    match k
    case FullText => Some(Str(b.fullText))
    case ShortText => OptStr(b.shortText)
    case Color => OptStr(b.color)
    case Background => OptStr(b.background)
    case Border => OptStr(b.border)
    case BorderTop => OptNum(b.borderTop)
    case BorderBottom => OptNum(b.borderBottom)
    case BorderLeft => OptNum(b.borderLeft)
    case BorderRight => OptNum(b.borderRight)
    case MinWidth => OptMinWidth(b.minWidth)
    case Align => OptStr(b.align)
    case Name => OptStr(b.name)
    case Instance => OptStr(b.instance)
    case Urgent => OptBool(b.urgent)
    case Separator => OptBool(b.separator)
    case SeparatorBlockWidth => OptNum(b.separatorBlockWidth)
    case Markup => OptStr(b.markup)
  }

  function KeyIndex(k: BodyKey): (i: nat)
    ensures i < |BodyKeyOrder| && BodyKeyOrder[i] == k
  {
    match k
    case FullText => 0
    case ShortText => 1
    case Color => 2
    case Background => 3
    case Border => 4
    case BorderTop => 5
    case BorderBottom => 6
    case BorderLeft => 7
    case BorderRight => 8
    case MinWidth => 9
    case Align => 10
    case Name => 11
    case Instance => 12
    case Urgent => 13
    case Separator => 14
    case SeparatorBlockWidth => 15
    case Markup => 16
  }

  lemma BodyKeyOrderIndex()
    ensures forall j | 0 <= j < |BodyKeyOrder| :: KeyIndex(BodyKeyOrder[j]) == j
  {
  }

  /** The block's fields in declaration order, each skipped when `None`. */
  function BodyFields(b: Body): (fs: seq<Field<BodyKey>>)
    ensures Keys(Unskipped(fs)) == BodyKeyOrder
    ensures DistinctKeys(fs)
    ensures SkipsExactlyNulls(fs)
    ensures forall i | 0 <= i < |fs| ::
      (fs[i].skip <==> FieldValue(b, BodyKeyOrder[i]).None?)
      && (FieldValue(b, BodyKeyOrder[i]).Some? ==> fs[i].value == FieldValue(b, BodyKeyOrder[i]).value)
  {
    BodyKeyOrderIndex();
    seq(|BodyKeyOrder|, i requires 0 <= i < |BodyKeyOrder| => OptField(BodyKeyOrder[i], FieldValue(b, BodyKeyOrder[i])))
  }

  /** The pairs written for a block. */
  function BodyEntries(b: Body): (r: seq<Entry<BodyKey>>)
    ensures r == DropNulls(Unskipped(BodyFields(b)))
    ensures |r| > 0 && r[0] == Entry(FullText, Str(b.fullText))
    ensures NoNulls(r)
    ensures IsSubsequence(Keys(r), BodyKeyOrder)
  {
    var fs := BodyFields(b);
    EmittedIsUnskippedWithoutNulls(fs);
    EmittedKeysInOrder(fs);
    EmittedNoNulls(fs);
    assert fs == [fs[0]] + fs[1..];
    Emitted(fs)
  }

  function BodyJson(b: Body): Json {
    ToObject(BodyEntries(b), BodyKeyName)
  }

  /** Key names are lower-case letters and underscores, which JSON writes unescaped. */
  lemma BodyKeyNamePlain(k: BodyKey)
    ensures NeedsNoEscape(BodyKeyName(k))
  {
    var s := BodyKeyName(k);
    forall i | 0 <= i < |s| ensures IsPrintable(s[i]) && s[i] != '"' && s[i] != '\\' {
      assert 'a' <= s[i] <= 'z' || s[i] == '_';
    }
  }

  /** A block key is written quoted, with nothing escaped. */
  lemma BodyKeyText(k: BodyKey)
    ensures Quote(BodyKeyName(k)) == "\"" + BodyKeyName(k) + "\""
  {
    BodyKeyNamePlain(k);
    EscapePlain(BodyKeyName(k));
  }

  /**
   * Reading a block's written pairs at any key gives that field's value when
   * it is set and nothing when it is `None`: a key is present exactly when its
   * field is set, and never with `null`.
   */
  lemma BodyFieldWritten(b: Body, k: BodyKey)
    ensures Lookup(BodyEntries(b), k) == FieldValue(b, k)
    ensures k in Keys(BodyEntries(b)) <==> FieldValue(b, k).Some?
  {
    var fs := BodyFields(b);
    LookupEmitted(fs, KeyIndex(k));
    LookupIffKey(BodyEntries(b), k);
  }

  predicate IsPlain(b: Body) {
    b == DefaultBody().(fullText := b.fullText, color := b.color, separatorBlockWidth := b.separatorBlockWidth)
  }

  lemma PlainFieldsSkipped(b: Body)
    requires IsPlain(b)
    ensures forall i | 0 <= i < |BodyFields(b)| && i != 0 && i != 2 && i != 15 :: BodyFields(b)[i].skip
  {
    BodyKeyOrderIndex();
    var fs := BodyFields(b);
    forall k | k != FullText && k != Color && k != SeparatorBlockWidth ensures FieldValue(b, k).None? {
    }
    forall i | 0 <= i < |fs| && i != 0 && i != 2 && i != 15 ensures fs[i].skip {
      var k := BodyKeyOrder[i];
      assert KeyIndex(k) == i;
    }
  }

  /** The pairs one field contributes. */
  function EmittedOne<K>(f: Field<K>): seq<Entry<K>> {
    if f.skip then [] else [Entry(f.key, f.value)]
  }

  /** `Emitted` on the suffix from `i`, stated one field at a time. */
  lemma EmittedStep<K>(fs: seq<Field<K>>, i: nat)
    requires i < |fs|
    ensures Emitted(fs[i..]) == EmittedOne(fs[i]) + Emitted(fs[i + 1..])
  {
    assert fs[i..][0] == fs[i];
    assert fs[i..][1..] == fs[i + 1..];
  }

  /** A run of skipped fields contributes nothing. */
  lemma {:induction false} EmittedSkipRun<K>(fs: seq<Field<K>>, lo: nat, hi: nat)
    requires lo <= hi <= |fs|
    requires forall i | lo <= i < hi :: fs[i].skip
    ensures Emitted(fs[lo..]) == Emitted(fs[hi..])
    decreases hi - lo
  {
    if lo < hi {
      EmittedStep(fs, lo);
      EmittedSkipRun(fs, lo + 1, hi);
    }
  }

  /** A table that may write only its first, third and sixteenth fields. */
  lemma EmittedThreeOf<K>(fs: seq<Field<K>>)
    requires |fs| == 17
    requires forall i | 0 <= i < |fs| && i != 0 && i != 2 && i != 15 :: fs[i].skip
    ensures Emitted(fs) == EmittedOne(fs[0]) + EmittedOne(fs[2]) + EmittedOne(fs[15])
  {
    var e0, e2, e15 := EmittedOne(fs[0]), EmittedOne(fs[2]), EmittedOne(fs[15]);
    calc {
      Emitted(fs);
      { assert fs[0..] == fs; EmittedStep(fs, 0); }
      e0 + Emitted(fs[1..]);
      { EmittedSkipRun(fs, 1, 2); EmittedStep(fs, 2); }
      e0 + (e2 + Emitted(fs[3..]));
      { EmittedSkipRun(fs, 3, 15); EmittedStep(fs, 15); }
      e0 + (e2 + (e15 + Emitted(fs[16..])));
      { EmittedSkipRun(fs, 16, 17); assert fs[17..] == []; }
      e0 + (e2 + (e15 + []));
      { AppendAssoc(e0, e2, e15); }
      e0 + e2 + e15;
    }
  }

  /**
   * A block that sets nothing but `full_text`, `color` and
   * `separator_block_width` is written as those keys, in that order, the
   * last two only when set.
   */
  lemma PlainBlockEntries(b: Body)
    requires IsPlain(b)
    ensures BodyEntries(b) ==
      [Entry(FullText, Str(b.fullText))]
      + (if b.color.Some? then [Entry(Color, Str(b.color.value))] else [])
      + (if b.separatorBlockWidth.Some? then [Entry(SeparatorBlockWidth, Num(b.separatorBlockWidth.value))] else [])
  {
    var fs := BodyFields(b);
    PlainFieldsSkipped(b);
    EmittedThreeOf(fs);
    assert fs[0] == OptField(FullText, Some(Str(b.fullText)));
    assert fs[2] == OptField(Color, OptStr(b.color));
    assert fs[15] == OptField(SeparatorBlockWidth, OptNum(b.separatorBlockWidth));
  }
}
