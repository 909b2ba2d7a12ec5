/** Rendering of the JMeter ISO-8583 sampler element (`createJMeterXMLString`), and a reader that
    recovers the timestamp and the fields from the rendered text, which serves as its inverse.

    The text is assembled literally: names and values are inserted verbatim, without XML escaping.
    The fixed pieces of text are gathered in a `Template`; `Sampler` is the one the converter uses,
    with its newlines and indentation exactly as in its template literals. */
module Fragment {
  import opened Wrappers
  import opened Text
  import opened Fields

  /** The fixed text around the variable parts of a sampler element. */
  datatype Template = Template(
    headerOpen: string,    // opening tag up to where the timestamp goes into `testname`
    headerClose: string,   // rest of the opening tag
    headerProps: string,   // fixed properties and the opening of the field collection
    blockOpen: string,     // `elementProp` opening up to the name
    blockMid: string,      // between the name and the repeated name (`testname`)
    blockContent: string,  // up to the value
    blockClose: string,    // after the value
    footer: string)        // closes the collection and the sampler, adds the empty `hashTree`

  /** `n` spaces. */
  function Indent(n: nat): (r: string)
    ensures |r| == n && forall k :: 0 <= k < n ==> r[k] == ' '
  {
    if n == 0 then "" else " " + Indent(n - 1)
  }

  /** A new line of XML indented by `n` spaces. */
  function Line(n: nat, text: string): string {
    "\n" + Indent(n) + text
  }

  /** The closing tag of the sampler followed by its empty `hashTree`: the last two lines of
      every rendered element. */
  const SamplerEnd := "</nz.co.breakpoint.jmeter.iso8583.ISO8583Sampler>" + Line(12, "<hashTree/>")

  /** The converter's template: empty header, response-code field 39, success code 000,
      timeout 20000, empty trailer; an `elementProp` of type `MessageField` per field; then the
      empty config key and the end of the sampler. The `"` that ends an attribute value is kept
      apart where the reader relies on it. */
  const Sampler := Template(
    Line(13, "<nz.co.breakpoint.jmeter.iso8583.ISO8583Sampler") + " guiclass=\"TestBeanGUI\""
      + " testclass=\"nz.co.breakpoint.jmeter.iso8583.ISO8583Sampler\"" + " testname=\"Nuovo nome",
    "\"" + " enabled=\"true\">",
    Line(14, "<stringProp name=\"header\"></stringProp>")
      + Line(14, "<stringProp name=\"responseCodeField\">39</stringProp>")
      + Line(14, "<stringProp name=\"successResponseCode\">000</stringProp>")
      + Line(14, "<intProp name=\"timeout\">20000</intProp>")
      + Line(14, "<stringProp name=\"trailer\"></stringProp>")
      + Line(14, "<collectionProp name=\"fields\">"),
    Line(16, "<elementProp name=\""),
    "\"" + " elementType=\"nz.co.breakpoint.jmeter.iso8583.MessageField\"" + " testname=\"",
    "\">" + Line(18, "<stringProp name=\"content\">"),
    "</stringProp>" + Line(16, "</elementProp>"),
    FooterLead + SamplerEnd)

  /** The footer up to the end of the sampler. */
  const FooterLead := Line(14, "</collectionProp>") + Line(14, "<stringProp name=\"configKey\"></stringProp>")
    + "\n" + Indent(12)

  /** Everything before the field blocks; only the timestamp varies. */
  function Header(t: Template, timestamp: string): string {
    t.headerOpen + timestamp + t.headerClose + t.headerProps
  }

  /** The block of one field: its name as both `name` and `testname`, its value as `content`. */
  function Block(t: Template, f: Field): string {
    t.blockOpen + f.name + t.blockMid + f.name + t.blockContent + f.content + t.blockClose
  }

  /** One block per field, in list order. */
  function Blocks(t: Template, fs: seq<Field>): string {
    if fs == [] then "" else Block(t, fs[0]) + Blocks(t, fs[1..])
  }

  /** Rendering a list split in two renders each part in turn: one block per field, in order. */
  lemma {:induction false} BlocksAppend(t: Template, a: seq<Field>, b: seq<Field>)
    ensures Blocks(t, a + b) == Blocks(t, a) + Blocks(t, b)
  {
    if a == [] {
      assert a + b == b;
    } else {
      assert (a + b)[1..] == a[1..] + b;
      BlocksAppend(t, a[1..], b);
      AppendAssoc(Block(t, a[0]), Blocks(t, a[1..]), Blocks(t, b));
    }
  }

  /** Header, blocks and footer. */
  function RenderWith(t: Template, fs: seq<Field>, timestamp: string): (r: string)
    ensures PrefixAt(r, 0, Header(t, timestamp)) && EndsWith(r, t.footer)
  {
    var h := Header(t, timestamp);
    var r := h + Blocks(t, fs) + t.footer;
    assert r[0..|h|] == h;
    EndsWithAppend(h + Blocks(t, fs), t.footer);
    r
  }

  /** `createJMeterXMLString`: the fixed header carrying the timestamp, one block per field in list
      order, and the fixed footer, whatever the fields are. */
  function Render(fs: seq<Field>, timestamp: string): (r: string)
    ensures PrefixAt(r, 0, Header(Sampler, timestamp))
    ensures EndsWith(r, SamplerEnd)
  {
    var r := RenderWith(Sampler, fs, timestamp);
    EndsWithSuffix(r, FooterLead, SamplerEnd);
    r
  }

  /** What the reader relies on: the text after the timestamp starts with `"`, the text after a
      name starts with a non-digit, and the text after a value starts with `<`. */
  predicate Delimited(t: Template) {
    && |t.headerClose| > 0 && t.headerClose[0] == '"'
    && |t.blockMid| > 0 && !IsDigit(t.blockMid[0])
    && |t.blockClose| > 0 && t.blockClose[0] == '<'
  }

  lemma SamplerDelimited()
    ensures Delimited(Sampler)
  {
    assert Sampler.headerClose[0] == '"';
    assert Sampler.blockMid[0] == '"';
    assert Sampler.blockClose[0] == '<';
  }

  /** A field the reader can recover from its block: a digit name and a value free of `<`, which
      ends the value since nothing is escaped. */
  predicate Renderable(f: Field) {
    AllDigits(f.name) && '<' !in f.content
  }

  /** Reads one field block from the front of `s`: the opening text, then the name and the
      rest. Yields the field and what follows the block. */
  function ReadBlock(t: Template, s: string): (r: Option<(Field, string)>)
    ensures r.Some? ==> |r.value.1| < |s|
  {
    match DropPrefix(s, t.blockOpen)
    case None => None
    case Some(s1) => ReadNamed(t, s1)
  }

  /** The name is the digit run at the front; it is followed by the text between the names, the
      same name again and the text before the value. */
  function ReadNamed(t: Template, s: string): (r: Option<(Field, string)>)
    ensures r.Some? ==> |r.value.1| < |s|
  {
    var name := s[..DigitRun(s, 0)];
    match DropPrefix(s[|name|..], t.blockMid)
    case None => None
    case Some(s2) =>
      match DropPrefix(s2, name)
      case None => None
      case Some(s3) =>
        match DropPrefix(s3, t.blockContent)
        case None => None
        case Some(s4) => ReadContent(t, name, s4)
  }

  /** The value is the text before the next `<`; the closing text must follow it. */
  function ReadContent(t: Template, name: string, s: string): (r: Option<(Field, string)>)
    ensures r.Some? ==> |r.value.1| < |s| && r.value.0.name == name
  {
    var content := s[..RunBefore(s, 0, '<')];
    match DropPrefix(s[|content|..], t.blockClose)
    case None => None
    case Some(rest) => if |t.blockClose| == 0 then None else Some((Field(name, content), rest))
  }

  /** Reads field blocks until `s` is used up. */
  function ReadBlocks(t: Template, s: string): Option<seq<Field>>
    decreases |s|
  {
    if s == [] then Some([])
    else
      match ReadBlock(t, s)
      case None => None
      case Some((f, rest)) =>
        match ReadBlocks(t, rest)
        case None => None
        case Some(fs) => Some([f] + fs)
  }

  /** What a rendered sampler element carries: the timestamp suffix of its name and its fields. */
  datatype Element = Element(timestamp: string, fields: seq<Field>)

  /** Reads a rendered sampler element back: the opening of the header, then the rest. */
  function ReadWith(t: Template, x: string): Option<Element> {
    match DropPrefix(x, t.headerOpen)
    case None => None
    case Some(x1) => ReadStamped(t, x1)
  }

  /** The timestamp is the text before the next `"`; the rest of the header follows it. */
  function ReadStamped(t: Template, x: string): Option<Element> {
    var timestamp := x[..RunBefore(x, 0, '"')];
    match DropPrefix(x[|timestamp|..], t.headerClose + t.headerProps)
    case None => None
    case Some(body) =>
      match ReadBody(t, body)
      case None => None
      case Some(fs) => Some(Element(timestamp, fs))
  }

  /** The blocks, then the footer at the very end. */
  function ReadBody(t: Template, x: string): Option<seq<Field>> {
    if !EndsWith(x, t.footer) then None
    else ReadBlocks(t, x[..|x| - |t.footer|])
  }

  /** Reads back an element rendered by the converter. */
  function Read(x: string): Option<Element> {
    ReadWith(Sampler, x)
  }

  /** The value stage of `ReadBlock` recovers a value free of `<`. */
  lemma ReadContentComplete(t: Template, f: Field, rest: string)
    requires Delimited(t) && '<' !in f.content
    ensures ReadContent(t, f.name, f.content + (t.blockClose + rest)) == Some((f, rest))
  {
    var s := f.content + (t.blockClose + rest);
    assert s[..|f.content|] == f.content;
    assert s[|f.content|..] == t.blockClose + rest;
    PrefixAtHead(s, |f.content|, t.blockClose + rest);
    RunBeforeOver(s, 0, f.content, '<');
    DropPrefixAppend(t.blockClose, rest);
  }

  /** The name stage of `ReadBlock` recovers a digit name repeated around the text between. */
  lemma ReadNamedComplete(t: Template, f: Field, rest: string)
    requires Delimited(t) && AllDigits(f.name)
    ensures ReadNamed(t, f.name + (t.blockMid + (f.name + (t.blockContent + rest))))
            == ReadContent(t, f.name, rest)
  {
    var s3 := t.blockContent + rest;
    var s2 := f.name + s3;
    var s := f.name + (t.blockMid + s2);
    assert s[..|f.name|] == f.name;
    assert s[|f.name|..] == t.blockMid + s2;
    PrefixAtHead(s, |f.name|, t.blockMid + s2);
    DigitRunOver(s, 0, f.name);
    DropPrefixAppend(t.blockMid, s2);
    DropPrefixAppend(f.name, s3);
    DropPrefixAppend(t.blockContent, rest);
  }

  /** A block followed by more text, regrouped piece by piece from the front, as the reader
      consumes it. */
  lemma BlockThen(t: Template, f: Field, rest: string)
    ensures Block(t, f) + rest
            == t.blockOpen + (f.name + (t.blockMid + (f.name + (t.blockContent + (f.content + (t.blockClose + rest))))))
  {
    var p1 := t.blockOpen + f.name;
    var p2 := p1 + t.blockMid;
    var p3 := p2 + f.name;
    var p4 := p3 + t.blockContent;
    var p5 := p4 + f.content;
    var s5 := t.blockClose + rest;
    var s4 := f.content + s5;
    var s3 := t.blockContent + s4;
    var s2 := f.name + s3;
    var s1 := t.blockMid + s2;
    assert Block(t, f) == p5 + t.blockClose;
    AppendAssoc(p5, t.blockClose, rest);
    AppendAssoc(p4, f.content, s5);
    AppendAssoc(p3, t.blockContent, s4);
    AppendAssoc(p2, f.name, s3);
    AppendAssoc(p1, t.blockMid, s2);
    AppendAssoc(t.blockOpen, f.name, s1);
  }

  /** A rendered element regrouped from the front, as the reader consumes it. */
  lemma RenderThen(t: Template, fs: seq<Field>, timestamp: string)
    ensures RenderWith(t, fs, timestamp)
            == t.headerOpen + (timestamp + ((t.headerClose + t.headerProps) + (Blocks(t, fs) + t.footer)))
  {
    var body := Blocks(t, fs) + t.footer;
    var q1 := t.headerOpen + timestamp;
    var q2 := q1 + t.headerClose;
    assert RenderWith(t, fs, timestamp) == (q2 + t.headerProps) + Blocks(t, fs) + t.footer;
    AppendAssoc(q2 + t.headerProps, Blocks(t, fs), t.footer);
    AppendAssoc(q2, t.headerProps, body);
    AppendAssoc(q1, t.headerClose, t.headerProps + body);
    AppendAssoc(t.headerClose, t.headerProps, body);
    AppendAssoc(t.headerOpen, timestamp, (t.headerClose + t.headerProps) + body);
  }

  /** The reader recovers every renderable field from its block, and leaves what follows. */
  lemma ReadBlockComplete(t: Template, f: Field, rest: string)
    requires Delimited(t) && Renderable(f)
    ensures ReadBlock(t, Block(t, f) + rest) == Some((f, rest))
  {
    var s4 := f.content + (t.blockClose + rest);
    var s1 := f.name + (t.blockMid + (f.name + (t.blockContent + s4)));
    BlockThen(t, f, rest);
    DropPrefixAppend(t.blockOpen, s1);
    ReadNamedComplete(t, f, s4);
    ReadContentComplete(t, f, rest);
  }

  /** A nonempty list is its head followed by its tail. */
  lemma HeadTail(fs: seq<Field>)
    requires fs != []
    ensures [fs[0]] + fs[1..] == fs
  {
  }

  /** One step of `ReadBlocks`: a block read from the front, then the blocks after it. */
  lemma ReadBlocksStep(t: Template, s: string, f: Field, rest: string, fs: seq<Field>)
    ensures ReadBlock(t, s) == Some((f, rest)) && ReadBlocks(t, rest) == Some(fs)
            ==> ReadBlocks(t, s) == Some([f] + fs)
  {
    if ReadBlock(t, s) == Some((f, rest)) {
      assert s != [];
    }
  }

  /** The reader recovers a whole list of renderable fields from their blocks, in order. */
  lemma {:induction false} ReadBlocksComplete(t: Template, fs: seq<Field>)
    requires Delimited(t)
    requires forall k :: 0 <= k < |fs| ==> Renderable(fs[k])
    ensures ReadBlocks(t, Blocks(t, fs)) == Some(fs)
  {
    if fs != [] {
      var tail := fs[1..];
      var rest := Blocks(t, tail);
      assert Blocks(t, fs) == Block(t, fs[0]) + rest;
      assert Renderable(fs[0]);
      ReadBlockComplete(t, fs[0], rest);
      assert forall k :: 0 <= k < |tail| ==> Renderable(tail[k]) by {
        forall k | 0 <= k < |tail|
          ensures Renderable(tail[k])
        {
          assert tail[k] == fs[k + 1];
        }
      }
      ReadBlocksComplete(t, tail);
      ReadBlocksStep(t, Blocks(t, fs), fs[0], rest, tail);
      HeadTail(fs);
    }
  }

  lemma ReadBodyComplete(t: Template, fs: seq<Field>)
    requires Delimited(t)
    requires forall k :: 0 <= k < |fs| ==> Renderable(fs[k])
    ensures ReadBody(t, Blocks(t, fs) + t.footer) == Some(fs)
  {
    var x := Blocks(t, fs) + t.footer;
    EndsWithAppend(Blocks(t, fs), t.footer);
    assert x[..|x| - |t.footer|] == Blocks(t, fs);
    ReadBlocksComplete(t, fs);
  }

  lemma ReadStampedComplete(t: Template, timestamp: string, body: string)
    requires Delimited(t) && '"' !in timestamp
    ensures ReadStamped(t, timestamp + (t.headerClose + t.headerProps + body))
            == match ReadBody(t, body)
               case None => None
               case Some(fs) => Some(Element(timestamp, fs))
  {
    var props := t.headerClose + t.headerProps;
    var x := timestamp + (props + body);
    assert x[..|timestamp|] == timestamp;
    assert x[|timestamp|..] == props + body;
    PrefixAtHead(x, |timestamp|, props + body);
    RunBeforeOver(x, 0, timestamp, '"');
    DropPrefixAppend(props, body);
  }

  /** Rendering with a delimited template loses nothing the reader needs. */
  lemma ReadRenderWith(t: Template, fs: seq<Field>, timestamp: string)
    requires Delimited(t) && '"' !in timestamp
    requires forall k :: 0 <= k < |fs| ==> Renderable(fs[k])
    ensures ReadWith(t, RenderWith(t, fs, timestamp)) == Some(Element(timestamp, fs))
  {
    var body := Blocks(t, fs) + t.footer;
    var x1 := timestamp + (t.headerClose + t.headerProps + body);
    RenderThen(t, fs, timestamp);
    DropPrefixAppend(t.headerOpen, x1);
    ReadStampedComplete(t, timestamp, body);
    ReadBodyComplete(t, fs);
  }

  /** Rendering loses nothing: the timestamp and every field, in order and verbatim, come back
      from the text, provided the timestamp has no `"` and no value holds a `<`. */
  lemma ReadRender(fs: seq<Field>, timestamp: string)
    requires '"' !in timestamp
    requires forall k :: 0 <= k < |fs| ==> Renderable(fs[k])
    ensures Read(Render(fs, timestamp)) == Some(Element(timestamp, fs))
  {
    SamplerDelimited();
    ReadRenderWith(Sampler, fs, timestamp);
  }
}
