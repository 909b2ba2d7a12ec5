/** Insertion of a rendered sampler into a JMeter test plan (`processTemplateFile`): the new text
    goes, after a line break, right after the first place where a sampler closes and its empty
    `hashTree` follows. Reading and writing the files is left to the caller. */
module Splice {
  import opened Wrappers
  import opened Text

  /** The text searched for: the closing tag of a sampler, a line break, twelve spaces and an empty
      `hashTree`. */
  const Anchor := "</nz.co.breakpoint.jmeter.iso8583.ISO8583Sampler>" + "\n            <hashTree/>"

  /** The error raised when the template has no anchor. */
  const NotFound := "Pattern non trovato nel file template"

  /** `p` is where the anchor first occurs in `template`. */
  predicate FirstAnchor(template: string, p: nat) {
    PrefixAt(template, p, Anchor) && forall q :: 0 <= q < p ==> !PrefixAt(template, q, Anchor)
  }

  /** The template with `fragment` inserted, after a line break, right after the first anchor. */
  function Splice(template: string, fragment: string): (r: Result<string>)
    ensures r.Err? <==> !Occurs(template, Anchor)
    ensures r.Err? ==> r.message == NotFound
    ensures r.Ok? ==> |r.value| == |template| + 1 + |fragment|
  {
    match IndexOf(template, Anchor, 0)
    case None => Err(NotFound)
    case Some(p) =>
      var q := p + |Anchor|;
      Ok(template[..q] + "\n" + fragment + template[q..])
  }

  /** The first anchor is unique. */
  lemma FirstAnchorUnique(template: string, p: nat, p': nat)
    requires FirstAnchor(template, p) && FirstAnchor(template, p')
    ensures p == p'
  {
  }

  /** Splicing, stated by the first occurrence of the anchor: everything up to and including it,
      a line break, the fragment, then the rest of the template unchanged. */
  lemma SpliceAt(template: string, fragment: string, p: nat)
    requires FirstAnchor(template, p)
    ensures Splice(template, fragment)
            == Ok(template[..p + |Anchor|] + "\n" + fragment + template[p + |Anchor|..])
  {
    var r := IndexOf(template, Anchor, 0);
    assert Occurs(template, Anchor);
    FirstAnchorUnique(template, r.value, p);
  }

  /** The result starts with the template up to the end of its first anchor, carries the fragment
      after a line break, and ends with the rest of the template. */
  lemma SplicePieces(template: string, fragment: string, p: nat)
    requires FirstAnchor(template, p)
    ensures var q := p + |Anchor|;
            var r := Splice(template, fragment).value;
            && r[..q] == template[..q]
            && r[q] == '\n'
            && r[q + 1..q + 1 + |fragment|] == fragment
            && r[q + 1 + |fragment|..] == template[q..]
  {
    SpliceAt(template, fragment, p);
    var q := p + |Anchor|;
    var r := Splice(template, fragment).value;
    assert r == template[..q] + "\n" + fragment + template[q..];
    assert r[..q] == template[..q];
    assert r[q + 1..q + 1 + |fragment|] == fragment;
    assert r[q + 1 + |fragment|..] == template[q..];
  }

  /** A longer text that agrees with `template` on its first `p + |Anchor|` characters has its first
      anchor at `p` too. */
  lemma FirstAnchorKept(template: string, t: string, p: nat)
    requires FirstAnchor(template, p)
    requires p + |Anchor| <= |t| && t[..p + |Anchor|] == template[..p + |Anchor|]
    ensures FirstAnchor(t, p)
  {
    var n := |Anchor|;
    var q := p + n;
    SliceOfPrefix(t, q, p, q);
    SliceOfPrefix(template, q, p, q);
    forall k | 0 <= k < p
      ensures !PrefixAt(t, k, Anchor)
    {
      assert !PrefixAt(template, k, Anchor);
      SliceOfPrefix(t, q, k, k + n);
      SliceOfPrefix(template, q, k, k + n);
    }
  }

  /** Splicing twice into the same template puts the newer fragment first: both go right after the
      template's first anchor, since the first insertion leaves everything up to it in place. */
  lemma {:induction false} SpliceTwice(template: string, older: string, newer: string, p: nat)
    requires FirstAnchor(template, p)
    ensures var q := p + |Anchor|;
            && Splice(template, older).Ok?
            && Splice(Splice(template, older).value, newer)
               == Ok(template[..q] + "\n" + newer + "\n" + older + template[q..])
  {
    var q := p + |Anchor|;
    SpliceAt(template, older, p);
    var head := template[..q];
    var rest := template[q..];
    var tail := "\n" + (older + rest);
    var once := head + tail;
    assert Splice(template, older) == Ok(once) by {
      AppendAssoc(head + "\n", older, rest);
      AppendAssoc(head, "\n", older + rest);
    }
    assert once[..q] == head;
    FirstAnchorKept(template, once, p);
    SpliceAt(once, newer, p);
    assert once[q..] == tail;
    assert head + "\n" + newer + tail == head + "\n" + newer + "\n" + older + rest by {
      AppendAssoc(head + "\n" + newer, "\n", older + rest);
      AppendAssoc(head + "\n" + newer + "\n", older, rest);
    }
  }
}
