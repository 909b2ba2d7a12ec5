/** The single entity of the converter: a named message field. */
module Fields {
  import opened Wrappers
  import opened Text

  /** One ISO-8583 field as the converter keeps it: the field number as text and the raw value
      (`{ name, content }` records in the source). Field "0" carries the message type. */
  datatype Field = Field(name: string, content: string)

  /** A field read from text, with the index just past the text it was read from. */
  datatype Match = Match(field: Field, end: nat)

  /** Some entry of `fs` is named `name`. */
  predicate Has(fs: seq<Field>, name: string) {
    exists k :: 0 <= k < |fs| && fs[k].name == name
  }

  /** The first entry named `name`, as `Array.prototype.find`. */
  function Find(fs: seq<Field>, name: string): (r: Option<Field>)
    ensures r.None? <==> !Has(fs, name)
    ensures r.Some? ==> r.value.name == name
  {
    if |fs| == 0 then None
    else if fs[0].name == name then Some(fs[0])
    else
      var r := Find(fs[1..], name);
      assert forall j :: 0 <= j < |fs| - 1 ==> fs[1..][j] == fs[j + 1];
      r
  }

  /** `Find` yields the entry at the first index carrying the name. */
  lemma {:induction false} FindFirst(fs: seq<Field>, name: string)
    requires Has(fs, name)
    ensures exists k :: 0 <= k < |fs| && fs[k] == Find(fs, name).value
                        && forall j :: 0 <= j < k ==> fs[j].name != name
  {
    if fs[0].name != name {
      assert Has(fs[1..], name) by {
        var k :| 0 <= k < |fs| && fs[k].name == name;
        assert fs[1..][k - 1].name == name;
      }
      FindFirst(fs[1..], name);
      var k :| 0 <= k < |fs[1..]| && fs[1..][k] == Find(fs[1..], name).value
               && forall j :: 0 <= j < k ==> fs[1..][j].name != name;
      assert fs[k + 1] == Find(fs, name).value;
      forall j | 0 <= j < k + 1
        ensures fs[j].name != name
      {
        if j > 0 {
          assert fs[j] == fs[1..][j - 1];
        }
      }
    } else {
      assert fs[0] == Find(fs, name).value;
    }
  }
}
