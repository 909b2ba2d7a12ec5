/** Derivation of a 1420 advice message from the fields of a 1100 request
    (`process1420TemplateMessage`): the message type becomes 1420, a fixed list of fields is
    copied, field 24 is forced to 400, field 117 is derived from the date and time in field 12, and
    field 56 is built from the literal 1100, field 11, field 12, the code 05 and field 32. */
module Advice {
  import opened Wrappers
  import opened Fields

  /** The fields copied into the advice, in this order. */
  const Included: seq<string> :=
    ["2", "3", "4", "12", "24", "25", "28", "32", "33", "37", "38", "41", "42", "49", "56", "93", "94",
     "100", "117"]

  /** The list names fields 24, 56 and 117, and not field 11. */
  lemma IncludedNames()
    ensures "24" in Included && "56" in Included && "117" in Included && "11" !in Included
  {
  }

  /** The message type of the advice. */
  const AdviceType := Field("0", "1420")

  /** The value field 24 takes in the advice, whatever it was. */
  const Function24 := "400"

  /** Seconds used for field 117 when field 12 stops after the minutes. */
  const DefaultSeconds := "30"

  /** The names of `names` that some entry of `fs` carries, in the order of `names`. */
  function Present(fs: seq<Field>, names: seq<string>): (r: seq<string>)
    ensures |r| <= |names|
  {
    if names == [] then []
    else if Has(fs, names[0]) then [names[0]] + Present(fs, names[1..])
    else Present(fs, names[1..])
  }

  /** `Present` keeps exactly the names `fs` carries. */
  lemma {:induction false} PresentMembers(fs: seq<Field>, names: seq<string>)
    ensures forall n :: n in Present(fs, names) <==> n in names && Has(fs, n)
  {
    if names != [] {
      PresentMembers(fs, names[1..]);
      assert names == [names[0]] + names[1..];
    }
  }

  /** The copy of field `n` for the advice: field 24 becomes 400, any other keeps its value. */
  function Copied(n: string, f: Field): Field {
    Field(n, if n == "24" then Function24 else f.content)
  }

  /** For each of `names` that `fs` carries, in order, that field with the content of its first
      entry in `fs` (400 for field 24). */
  function CopyIncluded(fs: seq<Field>, names: seq<string>): (r: seq<Field>)
    ensures |r| <= |names|
  {
    if names == [] then []
    else
      var rest := CopyIncluded(fs, names[1..]);
      match Find(fs, names[0])
      case None => rest
      case Some(f) => [Copied(names[0], f)] + rest
  }

  /** The copies follow the present names one for one, each taking the content of the first entry
      of that name (400 for field 24). */
  lemma {:induction false} CopyIncludedSpec(fs: seq<Field>, names: seq<string>)
    ensures var r := CopyIncluded(fs, names);
            var p := Present(fs, names);
            && |r| == |p|
            && forall k :: 0 <= k < |r| ==> Find(fs, p[k]).Some? && r[k] == Copied(p[k], Find(fs, p[k]).value)
  {
    if names != [] {
      CopyIncludedSpec(fs, names[1..]);
      var rest := CopyIncluded(fs, names[1..]);
      var p' := Present(fs, names[1..]);
      match Find(fs, names[0])
      case None =>
        assert CopyIncluded(fs, names) == rest;
        assert Present(fs, names) == p';
      case Some(f) =>
        var r := CopyIncluded(fs, names);
        var p := Present(fs, names);
        assert r == [Copied(names[0], f)] + rest;
        assert p == [names[0]] + p';
        forall k | 1 <= k < |r|
          ensures Find(fs, p[k]).Some? && r[k] == Copied(p[k], Find(fs, p[k]).value)
        {
          assert r[k] == rest[k - 1];
          assert p[k] == ([names[0]] + p')[k] == p'[k - 1];
        }
    }
  }

  /** Field 117 from the value of field 12, read as YYMMDDhhmmss: day, month, hour, minute, then
      the seconds, or 30 when the value stops after the minutes. JavaScript's `substring(10, 12)`
      takes what there is, so an 11-character value gives a single seconds digit. */
  function Derive117(v: string): (r: Option<string>)
    ensures r.Some? <==> |v| >= 10
    ensures r.Some? ==> |r.value| == if |v| == 11 then 9 else 10
  {
    if |v| < 10 then None
    else
      var seconds := v[10..if |v| < 12 then |v| else 12];
      Some(v[4..6] + v[2..4] + v[6..8] + v[8..10] + (if seconds == "" then DefaultSeconds else seconds))
  }

  /** The derived field 117, when field 12 is present with a value of at least ten characters. */
  function Field117(fs: seq<Field>): (r: Option<Field>)
    ensures r.Some? <==> Has(fs, "12") && |Find(fs, "12").value.content| >= 10
    ensures r.Some? ==> r.value.name == "117" && Derive117(Find(fs, "12").value.content) == Some(r.value.content)
  {
    match Find(fs, "12")
    case None => None
    case Some(f12) =>
      if f12.content == "" then None
      else
        match Derive117(f12.content)
        case None => None
        case Some(v) => Some(Field("117", v))
  }

  /** The derived field 56, when fields 11, 12 and 32 are all present: the literal message type
      1100 (whatever field 0 holds), field 11, field 12, the code 05 and field 32, run together. */
  function Field56(fs: seq<Field>): (r: Option<Field>)
    ensures r.Some? <==> Has(fs, "11") && Has(fs, "12") && Has(fs, "32")
    ensures r.Some? ==> r.value.name == "56"
  {
    match (Find(fs, "11"), Find(fs, "12"), Find(fs, "32"))
    case (Some(f11), Some(f12), Some(f32)) =>
      Some(Field("56", "1100" + f11.content + f12.content + "05" + f32.content))
    case _ => None
  }

  function AsSeq(o: Option<Field>): (r: seq<Field>)
    ensures |r| == if o.Some? then 1 else 0
  {
    if o.Some? then [o.value] else []
  }

  /** `process1420TemplateMessage`: the advice type, the copies, then the derived fields 117 and 56.
      Nothing is de-duplicated: a copied 117 or 56 is kept and the derived one follows it. */
  function Process1420(fs: seq<Field>): (r: seq<Field>)
    ensures |r| >= 1 && r[0] == AdviceType
  {
    [AdviceType] + CopyIncluded(fs, Included) + Derived(fs)
  }

  /** The derived fields, 117 before 56. */
  function Derived(fs: seq<Field>): (r: seq<Field>)
    ensures |r| == |AsSeq(Field117(fs))| + |AsSeq(Field56(fs))|
  {
    AsSeq(Field117(fs)) + AsSeq(Field56(fs))
  }

  /** The advice has one field per present include-list name, plus the derived fields. */
  lemma Process1420Count(fs: seq<Field>)
    ensures |Process1420(fs)| == 1 + |Present(fs, Included)| + |AsSeq(Field117(fs))| + |AsSeq(Field56(fs))|
  {
    CopyIncludedSpec(fs, Included);
  }

  /** Where each part of the advice lies: the copies right after the type, in include-list order,
      then the derived field 117, then the derived field 56. */
  lemma Process1420Layout(fs: seq<Field>)
    ensures var r := Process1420(fs);
            var p := Present(fs, Included);
            var d := 1 + |p|;
            && |r| == d + |AsSeq(Field117(fs))| + |AsSeq(Field56(fs))|
            && (forall k :: 0 <= k < |p| ==> Find(fs, p[k]).Some? && r[1 + k] == Copied(p[k], Find(fs, p[k]).value))
            && (Field117(fs).Some? ==> r[d] == Field117(fs).value)
            && (Field56(fs).Some? ==> r[|r| - 1] == Field56(fs).value)
  {
    CopyIncludedSpec(fs, Included);
    var c := CopyIncluded(fs, Included);
    var r := Process1420(fs);
    var head := [AdviceType] + c;
    assert r == head + Derived(fs);
    forall k | 0 <= k < |c|
      ensures r[1 + k] == c[k]
    {
      assert r[1 + k] == head[1 + k];
    }
    if Field117(fs).Some? {
      assert r[|head|] == Derived(fs)[0];
    }
  }

  /** What sits at each index of the advice. */
  lemma Process1420Entry(fs: seq<Field>, k: nat)
    requires k < |Process1420(fs)|
    ensures var r := Process1420(fs);
            var p := Present(fs, Included);
            && (k == 0 ==> r[k] == AdviceType)
            && (1 <= k <= |p| ==> r[k].name == p[k - 1] && Find(fs, p[k - 1]).Some?
                                  && r[k].content == Copied(p[k - 1], Find(fs, p[k - 1]).value).content)
            && (|p| < k ==> r[k].name == "117" || r[k].name == "56")
  {
    Process1420Layout(fs);
    var r := Process1420(fs);
    var p := Present(fs, Included);
    if |p| < k {
      var head := [AdviceType] + CopyIncluded(fs, Included);
      assert r == head + Derived(fs);
      assert r[k] == Derived(fs)[k - |head|];
    }
  }

  /** Every field of the advice is the type or an include-list field; derived fields are named 117
      and 56, both on the list. */
  lemma Process1420Names(fs: seq<Field>)
    ensures forall k :: 0 <= k < |Process1420(fs)| ==> Process1420(fs)[k].name == "0" || Process1420(fs)[k].name in Included
  {
    PresentMembers(fs, Included);
    var r := Process1420(fs);
    var p := Present(fs, Included);
    IncludedNames();
    forall k | 0 <= k < |r|
      ensures r[k].name == "0" || r[k].name in Included
    {
      Process1420Entry(fs, k);
      if 1 <= k <= |p| {
        assert p[k - 1] in p;
      }
    }
  }

  /** Field 11 is never part of the advice. */
  lemma Process1420DropsField11(fs: seq<Field>)
    ensures forall k :: 0 <= k < |Process1420(fs)| ==> Process1420(fs)[k].name != "11"
  {
    Process1420Names(fs);
    IncludedNames();
  }

  /** Every field 24 of the advice is a copy of a field 24 of the request, and reads 400. */
  lemma Field24Copied(fs: seq<Field>, k: nat)
    requires k < |Process1420(fs)| && Process1420(fs)[k].name == "24"
    ensures Process1420(fs)[k].content == Function24 && "24" in Present(fs, Included)
  {
    var p := Present(fs, Included);
    Process1420Entry(fs, k);
    assert p[k - 1] == "24";
  }

  /** A field 24 of the request is copied into the advice. */
  lemma Field24Kept(fs: seq<Field>)
    requires Has(fs, "24")
    ensures Has(Process1420(fs), "24")
  {
    var p := Present(fs, Included);
    PresentMembers(fs, Included);
    IncludedNames();
    var k :| 0 <= k < |p| && p[k] == "24";
    Process1420Layout(fs);
    assert Process1420(fs)[1 + k].name == "24";
  }

  /** Field 24 is in the advice exactly when the request has one, and then it reads 400. */
  lemma Process1420Field24(fs: seq<Field>)
    ensures Has(Process1420(fs), "24") <==> Has(fs, "24")
    ensures forall k :: 0 <= k < |Process1420(fs)| && Process1420(fs)[k].name == "24" ==> Process1420(fs)[k].content == Function24
  {
    var r := Process1420(fs);
    forall k | 0 <= k < |r| && r[k].name == "24"
      ensures r[k].content == Function24
    {
      Field24Copied(fs, k);
    }
    if Has(r, "24") {
      var k :| 0 <= k < |r| && r[k].name == "24";
      Field24Copied(fs, k);
      PresentMembers(fs, Included);
    }
    if Has(fs, "24") {
      Field24Kept(fs);
    }
  }

  /** A derived field 117 does not replace a copied one: with field 117 in the request and a usable
      field 12, the advice carries field 117 twice, the copy first. */
  lemma Process1420KeepsBoth117(fs: seq<Field>)
    requires Has(fs, "117") && Field117(fs).Some?
    ensures exists i, j :: 0 <= i < j < |Process1420(fs)|
                           && Process1420(fs)[i].name == "117" && Process1420(fs)[j].name == "117"
  {
    Process1420Layout(fs);
    PresentMembers(fs, Included);
    var r := Process1420(fs);
    var p := Present(fs, Included);
    IncludedNames();
    var k :| 0 <= k < |p| && p[k] == "117";
    assert r[1 + k].name == "117" && r[1 + |p|].name == "117";
  }

  /** Field 117 rearranges field 12: with a full YYMMDDhhmmss value, the year and field 117 give
      field 12 back. */
  lemma Derive117Restores(v: string)
    requires |v| == 12
    ensures var r := Derive117(v).value;
            v == v[..2] + r[2..4] + r[..2] + r[4..6] + r[6..8] + r[8..10]
  {
    var r := Derive117(v).value;
    assert r == v[4..6] + v[2..4] + v[6..8] + v[8..10] + v[10..12];
    assert r[..2] == v[4..6] && r[2..4] == v[2..4] && r[4..6] == v[6..8] && r[6..8] == v[8..10]
           && r[8..10] == v[10..12];
    assert v == v[..2] + v[2..4] + v[4..6] + v[6..8] + v[8..10] + v[10..12];
  }

  /** Where each part of field 12 lands in field 117, for every length the derivation accepts:
      day, month, then hour and minute, then the characters from index 10 up to 12 that field 12
      has, or the default seconds when it has none. */
  lemma Derive117Parts(v: string)
    requires |v| >= 10
    ensures var r := Derive117(v).value;
            && r[..2] == v[4..6] && r[2..4] == v[2..4] && r[4..8] == v[6..10]
            && r[8..] == if |v| == 10 then DefaultSeconds else v[10..if |v| < 12 then |v| else 12]
  {
    var r := Derive117(v).value;
    var e := if |v| < 12 then |v| else 12;
    var ss := if |v| == 10 then DefaultSeconds else v[10..e];
    assert r == v[4..6] + v[2..4] + v[6..8] + v[8..10] + ss;
    assert v[6..10] == v[6..8] + v[8..10];
  }

  /** Field 12 without seconds gives field 117 ending in the default seconds. */
  lemma Derive117DefaultSeconds(v: string)
    requires |v| == 10
    ensures Derive117(v).value[8..] == DefaultSeconds
    ensures Derive117(v).value[..8] == v[4..6] + v[2..4] + v[6..10]
  {
    var r := Derive117(v).value;
    assert v[10..10] == "";
    assert r == v[4..6] + v[2..4] + v[6..8] + v[8..10] + DefaultSeconds;
    assert v[6..10] == v[6..8] + v[8..10];
  }

  /** The value in the source's own comment: 2025-08-20 03:26:30 gives day 20, month 08. */
  lemma Derive117Example(v: string)
    requires v == "250820032630"
    ensures Derive117(v) == Some("2008032630")
  {
    assert v[4..6] == "20" && v[2..4] == "08" && v[6..8] == "03" && v[8..10] == "26" && v[10..12] == "30";
    assert Derive117(v).value == v[4..6] + v[2..4] + v[6..8] + v[8..10] + v[10..12];
    assert "20" + "08" + "03" + "26" + "30" == "2008032630";
  }

  /** Where each of five strings sits in their concatenation. */
  lemma ConcatSlices(p: string, x: string, y: string, q: string, z: string)
    ensures var c := p + x + y + q + z;
            var a := |p| + |x|;
            var b := a + |y|;
            && |c| == b + |q| + |z|
            && c[..|p|] == p && c[|p|..a] == x && c[a..b] == y && c[b..b + |q|] == q && c[b + |q|..] == z
  {
    var c := p + x + y + q + z;
    var a := |p| + |x|;
    var b := a + |y|;
    assert c[..|p|] == p;
    assert c[|p|..a] == x;
    assert c[a..b] == y;
    assert c[b..b + |q|] == q;
    assert c[b + |q|..] == z;
  }

  /** Field 56 splits back into its parts: the type 1100, field 11, field 12, the code 05 and
      field 32, each taken from the first entry of its name. */
  lemma Field56Pieces(fs: seq<Field>)
    requires Field56(fs).Some?
    ensures var c := Field56(fs).value.content;
            var c11 := Find(fs, "11").value.content;
            var c12 := Find(fs, "12").value.content;
            var c32 := Find(fs, "32").value.content;
            var a := 4 + |c11|;
            var b := a + |c12|;
            && |c| == b + 2 + |c32|
            && c[..4] == "1100" && c[4..a] == c11 && c[a..b] == c12 && c[b..b + 2] == "05" && c[b + 2..] == c32
  {
    var c11 := Find(fs, "11").value.content;
    var c12 := Find(fs, "12").value.content;
    var c32 := Find(fs, "32").value.content;
    var c := Field56(fs).value.content;
    var a := 4 + |c11|;
    var b := a + |c12|;
    assert c == "1100" + c11 + c12 + "05" + c32;
    ConcatSlices("1100", c11, c12, "05", c32);
  }
}
