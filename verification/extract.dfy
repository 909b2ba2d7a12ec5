/** Field extraction from a free-text log line (`parseISO8583Fields`).

    The two regular expressions `<Msg=(\d+)>` and `<F(\d+)=([^>]+)>` are modelled as explicit
    scanners. Backtracking never changes their matches: `\d+` must be followed by `=` or `>`,
    which are not digits, and `[^>]+` must be followed by `>`, so each match is the literal
    prefix, a maximal run, and the closing characters. */
module Extract {
  import opened Wrappers
  import opened Text
  import opened Fields

  const MsgOpen := "<Msg="
  const FieldOpen := "<F"

  /** The text of one `<Msg=DIGITS>` marker carrying `digits` (the reference for the first regex). */
  predicate IsMsgToken(t: string, digits: string) {
    && digits != []
    && AllDigits(digits)
    && t == MsgOpen + digits + ">"
  }

  /** A field as the second regex can capture it: a nonempty digit name and a nonempty value
      without `>`. */
  predicate IsFieldRecord(f: Field) {
    && f.name != []
    && AllDigits(f.name)
    && f.content != []
    && '>' !in f.content
  }

  /** The text of one `<F DIGITS = VALUE>` marker carrying `f` (the reference for the second regex). */
  function FieldToken(f: Field): string {
    FieldOpen + f.name + "=" + f.content + ">"
  }

  predicate IsFieldToken(t: string, f: Field) {
    IsFieldRecord(f) && t == FieldToken(f)
  }

  ghost predicate MsgTokenAt(s: string, i: nat) {
    exists j: nat, d :: i <= j <= |s| && IsMsgToken(s[i..j], d)
  }

  ghost predicate FieldTokenAt(s: string, i: nat) {
    exists j: nat, f :: i <= j <= |s| && IsFieldToken(s[i..j], f)
  }

  /** The message-type regex tried at exactly position `i`. */
  function MsgAt(s: string, i: nat): (r: Option<string>)
    requires i <= |s|
    ensures r.Some? ==> i + |MsgOpen| + |r.value| + 1 <= |s| && r.value != [] && AllDigits(r.value)
  {
    if !PrefixAt(s, i, MsgOpen) then None
    else
      var d := i + |MsgOpen|;
      var n := DigitRun(s, d);
      DigitRunSpec(s, d);
      if n > 0 && d + n < |s| && s[d + n] == '>' then Some(s[d..d + n]) else None
  }

  /** The field regex tried at exactly position `i`; a match's `end` is the index just past its
      closing `>`, the regex's next `lastIndex`. */
  function FieldAt(s: string, i: nat): (r: Option<Match>)
    requires i <= |s|
    ensures r.Some? ==> i < r.value.end <= |s| && IsFieldRecord(r.value.field)
  {
    if !PrefixAt(s, i, FieldOpen) then None
    else
      var d := i + |FieldOpen|;
      var n := DigitRun(s, d);
      DigitRunSpec(s, d);
      if n == 0 || d + n == |s| || s[d + n] != '=' then None
      else
        var c := d + n + 1;
        var m := RunBefore(s, c, '>');
        RunBeforeSpec(s, c, '>');
        if m == 0 || c + m == |s| then None
        else
          var f := Field(s[d..d + n], s[c..c + m]);
          assert forall k :: 0 <= k < m ==> f.content[k] == s[c + k];
          Some(Match(f, c + m + 1))
  }

  /** Whatever `MsgAt` returns is read from a `<Msg=DIGITS>` marker at `i`. */
  lemma MsgAtSound(s: string, i: nat)
    requires i <= |s| && MsgAt(s, i).Some?
    ensures IsMsgToken(s[i..i + |MsgOpen| + |MsgAt(s, i).value| + 1], MsgAt(s, i).value)
  {
    var d := i + |MsgOpen|;
    var digits := MsgAt(s, i).value;
    var n := |digits|;
    assert s[i..d] == MsgOpen;
    assert s[d..d + n] == digits;
    assert s[d + n] == '>';
    assert s[i..d + n + 1] == s[i..d] + s[d..d + n] + [s[d + n]];
  }

  /** Whatever `FieldAt` returns is read from a `<F DIGITS = VALUE>` marker spanning `i` to its end. */
  lemma FieldAtSound(s: string, i: nat)
    requires i <= |s| && FieldAt(s, i).Some?
    ensures IsFieldToken(s[i..FieldAt(s, i).value.end], FieldAt(s, i).value.field)
  {
    var f := FieldAt(s, i).value.field;
    var d := i + |FieldOpen|;
    var c := d + |f.name| + 1;
    var e := c + |f.content|;
    RunBeforeSpec(s, c, '>');
    assert s[i..d] == FieldOpen;
    assert s[d..c - 1] == f.name;
    assert s[c - 1] == '=';
    assert s[c..e] == f.content;
    assert s[e] == '>';
    assert s[i..e + 1] == s[i..d] + f.name + [s[c - 1]] + f.content + [s[e]];
  }

  /** Where each part of a message-type marker sits inside it. */
  lemma MsgTokenLayout(digits: string)
    ensures |MsgOpen + digits + ">"| == |digits| + 6
    ensures (MsgOpen + digits + ">")[0..5] == MsgOpen
    ensures (MsgOpen + digits + ">")[5..5 + |digits|] == digits
    ensures (MsgOpen + digits + ">")[5 + |digits|] == '>'
  {
  }

  /** `MsgAt` recognises every marker: wherever the text holds `<Msg=DIGITS>`, it returns those digits. */
  lemma MsgAtComplete(s: string, i: nat, j: nat, digits: string)
    requires i <= j <= |s|
    requires IsMsgToken(s[i..j], digits)
    ensures MsgAt(s, i) == Some(digits)
  {
    var t := s[i..j];
    MsgTokenLayout(digits);
    assert PrefixAt(s, i, t);
    PrefixAtSlice(s, i, t, 0, 5);
    PrefixAtSlice(s, i, t, 5, 5 + |digits|);
    assert s[i + 5 + |digits|] == t[5 + |digits|];
    DigitRunOver(s, i + 5, digits);
  }

  /** Where each part of a field marker sits inside it. */
  lemma FieldTokenLayout(f: Field)
    ensures |FieldToken(f)| == |f.name| + |f.content| + 4
    ensures FieldToken(f)[0..2] == FieldOpen
    ensures FieldToken(f)[2..2 + |f.name|] == f.name
    ensures FieldToken(f)[2 + |f.name|] == '='
    ensures FieldToken(f)[3 + |f.name|..3 + |f.name| + |f.content|] == f.content
    ensures FieldToken(f)[3 + |f.name| + |f.content|] == '>'
  {
  }

  /** A marker found at `i` spans its own length and starts with `<F`. */
  lemma FieldTokenOpen(s: string, i: nat, j: nat, f: Field)
    requires i <= j <= |s|
    requires IsFieldToken(s[i..j], f)
    ensures j == i + 4 + |f.name| + |f.content|
    ensures PrefixAt(s, i, FieldOpen)
  {
    var t := s[i..j];
    FieldTokenLayout(f);
    assert PrefixAt(s, i, t);
    PrefixAtSlice(s, i, t, 0, 2);
  }

  /** A marker found at `i` holds its name after `<F`, then `=`. */
  lemma FieldTokenNameAt(s: string, i: nat, j: nat, f: Field)
    requires i <= j <= |s|
    requires IsFieldToken(s[i..j], f)
    ensures i + 3 + |f.name| <= |s|
    ensures PrefixAt(s, i + 2, f.name) && s[i + 2 + |f.name|] == '='
  {
    var t := s[i..j];
    var n := |f.name|;
    FieldTokenLayout(f);
    assert PrefixAt(s, i, t);
    PrefixAtSlice(s, i, t, 2, 2 + n);
    assert s[i + 2 + n] == t[2 + n];
  }

  /** A marker found at `i` holds its value after the `=`, then `>`. */
  lemma FieldTokenValueAt(s: string, i: nat, j: nat, f: Field)
    requires i <= j <= |s|
    requires IsFieldToken(s[i..j], f)
    ensures i + 4 + |f.name| + |f.content| <= |s|
    ensures PrefixAt(s, i + 3 + |f.name|, f.content) && s[i + 3 + |f.name| + |f.content|] == '>'
  {
    var t := s[i..j];
    var n, c := |f.name|, |f.content|;
    FieldTokenLayout(f);
    assert PrefixAt(s, i, t);
    PrefixAtSlice(s, i, t, 3 + n, 3 + n + c);
    assert s[i + 3 + n + c] == t[3 + n + c];
  }

  /** The name part of a marker found at `i`, as `FieldAt` reads it. */
  lemma FieldTokenName(s: string, i: nat, j: nat, f: Field)
    requires i <= j <= |s|
    requires IsFieldToken(s[i..j], f)
    ensures j == i + 4 + |f.name| + |f.content|
    ensures PrefixAt(s, i, FieldOpen)
    ensures DigitRun(s, i + 2) == |f.name|
    ensures s[i + 2..i + 2 + |f.name|] == f.name
    ensures s[i + 2 + |f.name|] == '='
  {
    FieldTokenOpen(s, i, j, f);
    FieldTokenNameAt(s, i, j, f);
    DigitRunOver(s, i + 2, f.name);
  }

  /** The value part of a marker found at `i`, as `FieldAt` reads it. */
  lemma FieldTokenContent(s: string, i: nat, j: nat, f: Field)
    requires i <= j <= |s|
    requires IsFieldToken(s[i..j], f)
    ensures RunBefore(s, i + 3 + |f.name|, '>') == |f.content|
    ensures s[i + 3 + |f.name|..i + 3 + |f.name| + |f.content|] == f.content
  {
    FieldTokenValueAt(s, i, j, f);
    RunBeforeOver(s, i + 3 + |f.name|, f.content, '>');
  }

  /** `FieldAt` recognises every marker, and the match is the whole marker. */
  lemma FieldAtComplete(s: string, i: nat, j: nat, f: Field)
    requires i <= j <= |s|
    requires IsFieldToken(s[i..j], f)
    ensures FieldAt(s, i) == Some(Match(f, j))
  {
    FieldTokenName(s, i, j, f);
    FieldTokenContent(s, i, j, f);
  }

  lemma MsgAtIff(s: string, i: nat)
    requires i <= |s|
    ensures MsgAt(s, i).Some? <==> MsgTokenAt(s, i)
  {
    if MsgAt(s, i).Some? {
      MsgAtSound(s, i);
    }
    if MsgTokenAt(s, i) {
      var j: nat, d :| i <= j <= |s| && IsMsgToken(s[i..j], d);
      MsgAtComplete(s, i, j, d);
    }
  }

  lemma FieldAtIff(s: string, i: nat)
    requires i <= |s|
    ensures FieldAt(s, i).Some? <==> FieldTokenAt(s, i)
  {
    if FieldAt(s, i).Some? {
      FieldAtSound(s, i);
    }
    if FieldTokenAt(s, i) {
      var j: nat, f :| i <= j <= |s| && IsFieldToken(s[i..j], f);
      FieldAtComplete(s, i, j, f);
    }
  }

  /** Where the leftmost message-type marker starts and what it carries. */
  datatype MsgHit = MsgHit(pos: nat, digits: string)

  /** `String.prototype.match` with a non-global regex: the leftmost `<Msg=DIGITS>` at or after `from`. */
  function FirstMsg(s: string, from: nat): (r: Option<MsgHit>)
    requires from <= |s|
    ensures r.Some? ==> from <= r.value.pos <= |s| && MsgAt(s, r.value.pos) == Some(r.value.digits)
    ensures r.Some? ==> forall q :: from <= q < r.value.pos ==> MsgAt(s, q).None?
    ensures r.None? ==> forall q :: from <= q <= |s| ==> MsgAt(s, q).None?
    decreases |s| - from
  {
    match MsgAt(s, from)
    case Some(d) => Some(MsgHit(from, d))
    case None => if from == |s| then None else FirstMsg(s, from + 1)
  }

  /** The `while (exec)` loop over the global field regex, starting at `lastIndex == from`:
      on a match at `i` the field is emitted and scanning resumes just past its `>`;
      otherwise the regex retries at `i + 1`. */
  function AllFields(s: string, from: nat): (r: seq<Field>)
    requires from <= |s|
    ensures forall k :: 0 <= k < |r| ==> IsFieldRecord(r[k])
    decreases |s| - from
  {
    if from == |s| then []
    else
      match FieldAt(s, from)
      case Some(m) => [m.field] + AllFields(s, m.end)
      case None => AllFields(s, from + 1)
  }

  /** `parseISO8583Fields`: the message type (first marker only) as field "0", then every field
      marker left to right. The message type comes first wherever it sits in the text. */
  function Parse(text: string): (r: seq<Field>)
    ensures |AllFields(text, 0)| <= |r| <= |AllFields(text, 0)| + 1
    ensures r[|r| - |AllFields(text, 0)|..] == AllFields(text, 0)
    ensures |r| > |AllFields(text, 0)| ==> r[0].name == "0" && r[0].content != [] && AllDigits(r[0].content)
  {
    match FirstMsg(text, 0)
    case Some(h) => [Field("0", h.digits)] + AllFields(text, 0)
    case None => AllFields(text, 0)
  }

  /** When the text holds a message-type marker, the first output field is field "0" carrying the
      digits of the LEFTMOST such marker; the field markers follow. */
  lemma ParseLeftmostMsg(text: string, p: nat, j: nat, digits: string)
    requires p <= j <= |text| && IsMsgToken(text[p..j], digits)
    requires forall q: nat :: q < p ==> !MsgTokenAt(text, q)
    ensures Parse(text) == [Field("0", digits)] + AllFields(text, 0)
  {
    MsgAtComplete(text, p, j, digits);
    var h := FirstMsg(text, 0);
    assert h.Some?;
    if h.value.pos < p {
      MsgAtIff(text, h.value.pos);
    }
    assert h.value.pos == p;
  }

  /** Without a message-type marker no field "0" is synthesised: the output is the field markers alone. */
  lemma ParseWithoutMsg(text: string)
    requires forall q: nat :: q <= |text| ==> !MsgTokenAt(text, q)
    ensures Parse(text) == AllFields(text, 0)
  {
    var h := FirstMsg(text, 0);
    if h.Some? {
      MsgAtIff(text, h.value.pos);
    }
  }

  /** A field marker at or after `from` guarantees the scan emits something. */
  lemma {:induction false} AllFieldsFindsMarker(s: string, from: nat, p: nat)
    requires from <= p <= |s|
    requires FieldAt(s, p).Some?
    ensures AllFields(s, from) != []
    decreases p - from
  {
    if from < |s| && FieldAt(s, from).None? {
      AllFieldsFindsMarker(s, from + 1, p);
    }
  }

  /** Conversely, the scan emits something only if some position holds a field marker. */
  lemma {:induction false} AllFieldsHasMarker(s: string, from: nat) returns (q: nat)
    requires from <= |s|
    requires AllFields(s, from) != []
    ensures from <= q < |s| && FieldAt(s, q).Some?
    decreases |s| - from
  {
    if FieldAt(s, from).Some? {
      q := from;
    } else {
      q := AllFieldsHasMarker(s, from + 1);
    }
  }

  /** Text without any `<Msg=DIGITS>` or `<F DIGITS = VALUE>` marker extracts to the empty list,
      and only such text does. */
  lemma ParseEmptyIff(text: string)
    ensures Parse(text) == [] <==>
            forall i: nat :: i <= |text| ==> !MsgTokenAt(text, i) && !FieldTokenAt(text, i)
  {
    if Parse(text) == [] {
      forall i: nat | i <= |text|
        ensures !MsgTokenAt(text, i) && !FieldTokenAt(text, i)
      {
        MsgAtIff(text, i);
        FieldAtIff(text, i);
        if FieldAt(text, i).Some? {
          AllFieldsFindsMarker(text, 0, i);
        }
      }
    } else {
      if AllFields(text, 0) != [] {
        var q := AllFieldsHasMarker(text, 0);
        FieldAtIff(text, q);
      } else {
        var h := FirstMsg(text, 0);
        MsgAtIff(text, h.value.pos);
      }
    }
  }

  /** One step of the scan, as a fact callers can use without unfolding the matcher. */
  lemma AllFieldsStep(s: string, i: nat)
    requires i < |s|
    ensures FieldAt(s, i).Some? ==> AllFields(s, i) == [FieldAt(s, i).value.field] + AllFields(s, FieldAt(s, i).value.end)
    ensures FieldAt(s, i).None? ==> AllFields(s, i) == AllFields(s, i + 1)
  {
  }

  /** Positions where no marker starts are skipped by the scan. */
  lemma {:induction false} AllFieldsSkip(s: string, i: nat, j: nat)
    requires i <= j <= |s|
    requires forall q :: i <= q < j ==> FieldAt(s, q).None?
    ensures AllFields(s, i) == AllFields(s, j)
    decreases j - i
  {
    if i < j {
      AllFieldsSkip(s, i + 1, j);
    }
  }

  /** No field marker starts at any position from `a` up to, not including, `b`. */
  ghost predicate NoFieldBetween(s: string, a: nat, b: nat) {
    a <= b <= |s| && forall q :: a <= q < b ==> FieldAt(s, q).None?
  }

  /** The reference for the scan: `fs` lists the successive leftmost field markers of `s` from
      `from` on, each search starting where the previous marker ended, and no marker is left after
      the last one. */
  ghost predicate ScannedFrom(s: string, from: nat, fs: seq<Field>)
    decreases |s| - from
  {
    && from <= |s|
    && if fs == [] then NoFieldBetween(s, from, |s|)
       else exists p: nat ::
              && NoFieldBetween(s, from, p) && p < |s|
              && FieldAt(s, p).Some? && FieldAt(s, p).value.field == fs[0]
              && ScannedFrom(s, FieldAt(s, p).value.end, fs[1..])
  }

  /** The scan yields the successive leftmost markers, in text order. */
  lemma {:induction false} AllFieldsScanned(s: string, from: nat)
    requires from <= |s|
    ensures ScannedFrom(s, from, AllFields(s, from))
    decreases |s| - from
  {
    var fs := AllFields(s, from);
    if from == |s| {
      assert NoFieldBetween(s, from, |s|);
    } else if FieldAt(s, from).Some? {
      var e := FieldAt(s, from).value.end;
      AllFieldsScanned(s, e);
      assert fs[1..] == AllFields(s, e);
      assert NoFieldBetween(s, from, from);
    } else {
      AllFieldsScanned(s, from + 1);
      assert fs == AllFields(s, from + 1);
      if fs == [] {
        assert NoFieldBetween(s, from, |s|);
      } else {
        var p: nat :| && NoFieldBetween(s, from + 1, p) && p < |s|
                      && FieldAt(s, p).Some? && FieldAt(s, p).value.field == fs[0]
                      && ScannedFrom(s, FieldAt(s, p).value.end, fs[1..]);
        assert NoFieldBetween(s, from, p);
      }
    }
  }

  /** Only the scan's own result lists the successive leftmost markers. */
  lemma {:induction false} ScannedIsAllFields(s: string, from: nat, fs: seq<Field>)
    requires ScannedFrom(s, from, fs)
    ensures AllFields(s, from) == fs
    decreases |s| - from
  {
    if fs == [] {
      AllFieldsSkip(s, from, |s|);
    } else {
      var p: nat :| && NoFieldBetween(s, from, p) && p < |s|
                    && FieldAt(s, p).Some? && FieldAt(s, p).value.field == fs[0]
                    && ScannedFrom(s, FieldAt(s, p).value.end, fs[1..]);
      AllFieldsSkip(s, from, p);
      AllFieldsStep(s, p);
      ScannedIsAllFields(s, FieldAt(s, p).value.end, fs[1..]);
    }
  }

  /** The `exec` loop's output is exactly the list of successive leftmost field markers: left to
      right, each search resuming after the previous marker, duplicates kept. */
  lemma AllFieldsIff(s: string, from: nat, fs: seq<Field>)
    requires from <= |s|
    ensures AllFields(s, from) == fs <==> ScannedFrom(s, from, fs)
  {
    AllFieldsScanned(s, from);
    if ScannedFrom(s, from, fs) {
      ScannedIsAllFields(s, from, fs);
    }
  }

  /** A field marker can only start at a `<`. */
  lemma NoFieldAtWithoutOpen(s: string, q: nat)
    requires q < |s| && s[q] != '<'
    ensures FieldAt(s, q).None?
  {
    if q + 2 <= |s| {
      assert s[q..q + 2][0] == s[q];
    }
  }

  /** A log line made of field markers, each preceded by a blank. */
  function Serialize(fs: seq<Field>): string {
    if fs == [] then "" else " " + FieldToken(fs[0]) + Serialize(fs[1..])
  }

  /** Field markers are extracted in left-to-right order, duplicates kept: scanning a serialized list
      gives the list back, wherever in the text it starts. */
  lemma {:induction false} AllFieldsSerialize(s: string, p: nat, fs: seq<Field>)
    requires p <= |s| && s[p..] == Serialize(fs)
    requires forall k :: 0 <= k < |fs| ==> IsFieldRecord(fs[k])
    ensures AllFields(s, p) == fs
    decreases fs
  {
    if fs == [] {
      assert p == |s|;
    } else {
      var f := fs[0];
      var t := FieldToken(f);
      var e := p + 1 + |t|;
      assert s[p..] == " " + t + Serialize(fs[1..]);
      assert s[p] == ' ';
      NoFieldAtWithoutOpen(s, p);
      AllFieldsStep(s, p);
      assert s[p + 1..e] == t;
      FieldAtComplete(s, p + 1, e, f);
      AllFieldsStep(s, p + 1);
      assert s[e..] == Serialize(fs[1..]);
      AllFieldsSerialize(s, e, fs[1..]);
    }
  }

  /** No field marker starts inside a message-type marker. */
  lemma NoFieldInMsgToken(s: string, p: nat, digits: string)
    requires AllDigits(digits)
    requires PrefixAt(s, p, MsgOpen + digits + ">")
    ensures forall q :: p <= q < p + |digits| + 6 ==> FieldAt(s, q).None?
  {
    var m := MsgOpen + digits + ">";
    assert s[p..p + |m|] == m;
    forall q | p <= q < p + |m|
      ensures FieldAt(s, q).None?
    {
      assert s[q] == m[q - p];
      if q == p {
        assert s[p + 1] == m[1] == 'M';
      } else {
        if p + 5 <= q < p + 5 + |digits| {
          assert m[q - p] == digits[q - p - 5];
        }
        NoFieldAtWithoutOpen(s, q);
      }
    }
  }

  /** Text before the first `<` holds no marker of either kind. */
  lemma NoMarkerInLead(s: string, lead: string)
    requires PrefixAt(s, 0, lead) && '<' !in lead
    ensures forall q: nat :: q < |lead| ==> !MsgTokenAt(s, q) && FieldAt(s, q).None?
  {
    forall q: nat | q < |lead|
      ensures !MsgTokenAt(s, q) && FieldAt(s, q).None?
    {
      assert s[q] == s[..|lead|][q] == lead[q];
      NoFieldAtWithoutOpen(s, q);
      MsgAtIff(s, q);
    }
  }

  /** In such a log line the field scan finds exactly the serialized fields. */
  lemma FieldsAfterLead(lead: string, digits: string, fs: seq<Field>)
    requires '<' !in lead
    requires digits != [] && AllDigits(digits)
    requires forall k :: 0 <= k < |fs| ==> IsFieldRecord(fs[k])
    ensures AllFields(lead + (MsgOpen + digits + ">") + Serialize(fs), 0) == fs
  {
    var m := MsgOpen + digits + ">";
    var s := lead + m + Serialize(fs);
    var a := |lead|;
    var b := a + |m|;
    ThreeParts(lead, m, Serialize(fs));
    assert PrefixAt(s, 0, lead) && PrefixAt(s, a, m);
    NoMarkerInLead(s, lead);
    AllFieldsSkip(s, 0, a);
    NoFieldInMsgToken(s, a, digits);
    AllFieldsSkip(s, a, b);
    AllFieldsSerialize(s, b, fs);
  }

  /** In such a log line the message-type marker after the lead is the leftmost one. */
  lemma MsgAfterLead(lead: string, digits: string, rest: string)
    requires '<' !in lead
    requires digits != [] && AllDigits(digits)
    ensures var s := lead + (MsgOpen + digits + ">") + rest;
            Parse(s) == [Field("0", digits)] + AllFields(s, 0)
  {
    var m := MsgOpen + digits + ">";
    var s := lead + m + rest;
    ThreeParts(lead, m, rest);
    assert PrefixAt(s, 0, lead);
    NoMarkerInLead(s, lead);
    ParseLeftmostMsg(s, |lead|, |lead| + |m|, digits);
  }

  /** A log line made of free text without `<`, a message-type marker and field markers extracts
      to field "0" and then exactly those fields, in order, with duplicates. */
  lemma ParseRoundTrip(lead: string, digits: string, fs: seq<Field>)
    requires '<' !in lead
    requires digits != [] && AllDigits(digits)
    requires forall k :: 0 <= k < |fs| ==> IsFieldRecord(fs[k])
    ensures Parse(lead + (MsgOpen + digits + ">") + Serialize(fs)) == [Field("0", digits)] + fs
  {
    MsgAfterLead(lead, digits, Serialize(fs));
    FieldsAfterLead(lead, digits, fs);
  }

  /** The two field markers of the documented example, as `Serialize` writes them. */
  lemma SerializeExample(fs: seq<Field>)
    requires fs == [Field("2", "A"), Field("2", "B")]
    ensures Serialize(fs) == " <F2=A> <F2=B>"
  {
    assert Serialize(fs[1..]) == " <F2=B>" by {
      assert Serialize(fs[1..][1..]) == "";
    }
  }

  lemma ExampleText(text: string)
    requires text == "<Msg=1100> <F2=A> <F2=B>"
    ensures text == "" + (MsgOpen + "1100" + ">") + " <F2=A> <F2=B>"
  {
  }

  /** The documented example: `<Msg=1100> <F2=A> <F2=B>` extracts to ("0","1100"), ("2","A"), ("2","B"). */
  lemma ParseExample(text: string)
    requires text == "<Msg=1100> <F2=A> <F2=B>"
    ensures Parse(text) == [Field("0", "1100"), Field("2", "A"), Field("2", "B")]
  {
    var fs := [Field("2", "A"), Field("2", "B")];
    SerializeExample(fs);
    ExampleText(text);
    ParseRoundTrip("", "1100", fs);
  }
}
