/** Required-field checks on JSON request bodies: the handlers walk a fixed
    list of field names and reject the request at the first one absent. */
module Forms {
  import opened Wrappers

  /** A JSON request body whose members are all strings. */
  type Form = map<string, string>

  /** The position of the first required name not present, or `|required|`
      when all are present. */
  function FirstAbsent(required: seq<string>, present: set<string>): (k: nat)
    ensures k <= |required|
    ensures forall j :: 0 <= j < k ==> required[j] in present
    ensures k < |required| ==> required[k] !in present
  {
    if |required| == 0 then 0
    else if required[0] !in present then 0
    else 1 + FirstAbsent(required[1..], present)
  }

  /** The field named in the "Missing required field" reply, if any. */
  function MissingField(required: seq<string>, form: Form): (r: Option<string>)
    ensures r.None? <==> forall j :: 0 <= j < |required| ==> required[j] in form
    ensures r.Some? ==> r.value in required && r.value !in form
  {
    var k := FirstAbsent(required, form.Keys);
    if k < |required| then Some(required[k]) else None
  }

  /** The reported field is the first absent one in list order: every field
      listed before it is present. */
  lemma MissingFieldIsFirst(required: seq<string>, form: Form, j: nat)
    requires MissingField(required, form).Some?
    requires j < |required| && required[j] == MissingField(required, form).value
    requires forall a, b :: 0 <= a < b < |required| ==> required[a] != required[b]
    ensures forall i :: 0 <= i < j ==> required[i] in form
  {
    var k := FirstAbsent(required, form.Keys);
    assert required[k] == required[j];
  }

  /** Adding members the list does not name never changes the verdict. */
  lemma {:induction false} ExtraFieldsIrrelevant(required: seq<string>, form: Form, extra: Form)
    requires forall k :: k in extra ==> k !in required
    ensures MissingField(required, form + extra) == MissingField(required, form)
  {
    FirstAbsentOnlySeesRequired(required, form.Keys, (form + extra).Keys);
  }

  lemma {:induction false} FirstAbsentOnlySeesRequired(required: seq<string>, p: set<string>, q: set<string>)
    requires forall i :: 0 <= i < |required| ==> (required[i] in p <==> required[i] in q)
    ensures FirstAbsent(required, p) == FirstAbsent(required, q)
    decreases |required|
  {
    if |required| > 0 {
      FirstAbsentOnlySeesRequired(required[1..], p, q);
    }
  }
}
