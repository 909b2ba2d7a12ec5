/** The converter's data flow (`main`): extract the fields from the log line, render them as a
    sampler named after the timestamp, and splice the sampler into the test-plan template. The
    timestamp and the template's text are inputs here; the clock and the files are not modelled. */
module Converter {
  import opened Wrappers
  import opened Text
  import opened Fields
  import Extract
  import Fragment
  import Splice

  /** The test plan the converter writes for the log line `text`, or the splice's error. */
  function Convert(text: string, timestamp: string, template: string): (r: Result<string>)
    ensures r.Err? <==> !Occurs(template, Splice.Anchor)
  {
    var fragment := Fragment.Render(Extract.Parse(text), timestamp);
    Splice.Splice(template, fragment)
  }

  /** The end of every rendered sampler is the text the splice looks for. */
  lemma AnchorIsSamplerEnd()
    ensures Splice.Anchor == Fragment.SamplerEnd
  {
  }

  /** Every rendered sampler ends with the anchor, whatever its fields. */
  lemma RenderEndsWithAnchor(fs: seq<Field>, timestamp: string)
    ensures EndsWith(Fragment.Render(fs, timestamp), Splice.Anchor)
  {
    AnchorIsSamplerEnd();
  }

  /** Every extracted field has a digit name: field "0" or a field marker's number. */
  lemma ParsedNamesAreDigits(text: string)
    ensures forall k :: 0 <= k < |Extract.Parse(text)| ==> AllDigits(Extract.Parse(text)[k].name)
  {
    var r := Extract.Parse(text);
    var a := Extract.AllFields(text, 0);
    var off := |r| - |a|;
    forall k | 0 <= k < |r|
      ensures AllDigits(r[k].name)
    {
      if k < off {
        assert r[k].name == "0";
      } else {
        assert r[k] == r[off..][k - off] == a[k - off];
      }
    }
  }

  /** A converted log line goes right after the template's first anchor, and the inserted sampler
      reads back as the timestamp and the extracted fields, unless a value holds a `<` or the
      timestamp a `"`. */
  lemma ConvertKeepsFields(text: string, timestamp: string, template: string, p: nat)
    requires Splice.FirstAnchor(template, p)
    requires '"' !in timestamp
    requires forall k :: 0 <= k < |Extract.Parse(text)| ==> '<' !in Extract.Parse(text)[k].content
    ensures var q := p + |Splice.Anchor|;
            exists fragment ::
              && Convert(text, timestamp, template) == Ok(template[..q] + "\n" + fragment + template[q..])
              && Fragment.Read(fragment) == Some(Fragment.Element(timestamp, Extract.Parse(text)))
              && EndsWith(fragment, Splice.Anchor)
  {
    var fs := Extract.Parse(text);
    var fragment := Fragment.Render(fs, timestamp);
    Splice.SpliceAt(template, fragment, p);
    ParsedNamesAreDigits(text);
    Fragment.ReadRender(fs, timestamp);
    RenderEndsWithAnchor(fs, timestamp);
  }
}
