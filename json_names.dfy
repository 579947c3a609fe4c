/** The JSON property names the backend writes. The controllers keep the
    web defaults of the JSON serializer, which turn a C# property name into
    camel case; the clients read the replies by those names. */
module JsonNames {
  import opened Text

  /** A JSON value as a client reads it; a property that is absent reads as
      `undefined`, which the model folds into Nil. */
  datatype Field = Num(n: int) | Str(s: string) | Flag(b: bool) | Nil

  type JsonObject = map<string, Field>

  /** Whether `o.key` is truthy: present, and neither 0, "", false nor null. */
  predicate TruthyField(o: JsonObject, key: string) {
    key in o &&
    match o[key]
    case Num(n) => n != 0
    case Str(s) => s != []
    case Flag(b) => b
    case Nil => false
  }

  /** The camel-case naming policy: a name that does not start with a
      capital is kept; otherwise its leading run of capitals is lowered,
      except that the last capital of a run of two or more stays when a
      character other than a capital or a space follows it. */
  function CamelCase(name: string): (r: string)
    ensures |r| == |name|
    ensures r != [] ==> !IsUpper(r[0])
    ensures name == [] || !IsUpper(name[0]) ==> r == name
  {
    if name == [] || !IsUpper(name[0]) then name
    else [ToLower(name[0])] + LowerCapitals(name[1..])
  }

  /** The rest of a name after its first, lowered, capital. */
  function LowerCapitals(t: string): (r: string)
    ensures |r| == |t|
  {
    if t == [] || !IsUpper(t[0]) then t
    else if |t| > 1 && !IsUpper(t[1]) then (if t[1] == ' ' then [ToLower(t[0])] else [t[0]]) + t[1..]
    else [ToLower(t[0])] + LowerCapitals(t[1..])
  }

  /** An object as the serializer writes it: the reference handler's `$id`
      first, then each property under its camel-case name, in order. */
  function Serialize(props: seq<(string, Field)>): (o: JsonObject)
    requires forall i :: 0 <= i < |props| ==> props[i].0 != []
    ensures forall k :: k in o ==> k != [] && !IsUpper(k[0])
  {
    if props == [] then map["$id" := Str("1")]
    else
      var last := props[|props| - 1];
      Serialize(props[..|props| - 1])[CamelCase(last.0) := last.1]
  }

  /** A property's value is the one read back under its name, unless a
      later property shares that name. */
  lemma {:induction false} SerializedValue(props: seq<(string, Field)>, i: nat)
    requires forall i :: 0 <= i < |props| ==> props[i].0 != []
    requires i < |props|
    requires forall j :: i < j < |props| ==> CamelCase(props[j].0) != CamelCase(props[i].0)
    ensures CamelCase(props[i].0) in Serialize(props) && Serialize(props)[CamelCase(props[i].0)] == props[i].1
  {
    if i < |props| - 1 {
      var init := props[..|props| - 1];
      assert init[i] == props[i];
      SerializedValue(init, i);
    }
  }

  /** The keys of a written object are `$id` and the camel-case names of
      its properties. */
  lemma {:induction false} SerializedKeys(props: seq<(string, Field)>, k: string)
    requires forall i :: 0 <= i < |props| ==> props[i].0 != []
    requires k in Serialize(props)
    ensures k == "$id" || exists i :: 0 <= i < |props| && k == CamelCase(props[i].0)
  {
    if props != [] && k != CamelCase(props[|props| - 1].0) {
      var init := props[..|props| - 1];
      SerializedKeys(init, k);
      if k != "$id" {
        var i :| 0 <= i < |init| && k == CamelCase(init[i].0);
        assert init[i] == props[i];
      }
    }
  }

  /** No name the backend writes starts with a capital letter, so a client
      that reads a property spelled with a leading capital finds nothing. */
  lemma CapitalizedNameIsNeverWritten(name: string, key: string)
    requires key != [] && IsUpper(key[0])
    ensures CamelCase(name) != key
  {
  }

  /** A name with one leading capital loses only that capital. */
  lemma OneLeadingCapital(name: string)
    requires |name| > 1 && IsUpper(name[0]) && !IsUpper(name[1])
    ensures CamelCase(name) == [ToLower(name[0])] + name[1..]
  {
  }

  /** The name of a record's id as the backend writes it. */
  lemma RecordIdName()
    ensures CamelCase("TreatmentRecordID") == "treatmentRecordID"
  {
    OneLeadingCapital("TreatmentRecordID");
    assert "TreatmentRecordID"[1..] == "reatmentRecordID";
  }

  /** The name of a record's appointment. */
  lemma AppointmentIdName()
    ensures CamelCase("AppointmentID") == "appointmentID"
  {
    OneLeadingCapital("AppointmentID");
    assert "AppointmentID"[1..] == "ppointmentID";
  }

  /** The name of a record's visibility flag. */
  lemma VisibilityName()
    ensures CamelCase("IsVisibleToPatient") == "isVisibleToPatient"
  {
    OneLeadingCapital("IsVisibleToPatient");
    assert "IsVisibleToPatient"[1..] == "sVisibleToPatient";
  }

  /** A run of capitals is lowered as a whole when it ends the name, and up
      to its last capital when a lower-case letter follows. */
  lemma AcronymNames()
    ensures CamelCase("ID") == "id"
    ensures CamelCase("URLValue") == "urlValue"
  {
    assert LowerCapitals("D") == "d";
    assert LowerCapitals("Value") == "Value";
    assert LowerCapitals("LValue") == "lValue";
    assert LowerCapitals("RLValue") == "rlValue";
  }
}
