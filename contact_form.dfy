/** The contact form: per-field validation that writes an error slot and an
    error flag, clearing a field's error while it is edited, and a simulated
    submission that validates every field before it "sends". */
module Contact {
  import opened PageState
  import opened Validation

  /** An input or textarea of the form. `error` is its error class. */
  datatype Field = Field(name: string, value: string, defaultValue: string, error: bool)

  /** The element marked as the error slot of one field name. */
  datatype ErrorSlot = ErrorSlot(text: string, shown: bool)

  /** The form's status line: its text, its kind (the class after
      "form-message") and whether it is displayed. */
  datatype StatusLine = StatusLine(text: string, kind: string, shown: bool)

  const SendDelay: nat := 2000
  const HideDelay: nat := 5000
  const FixErrorsText := "Please fix the errors above."
  const SendingText := "Sending message..."
  const SentText := "Thank you! Your message has been sent successfully."

  /** Field rules: the verdict for a field's name and raw value. The form
      applies ValidateValue. */
  type Rules = (string, string) -> Verdict

  /** The verdict `rules` give a field. */
  function Check(rules: Rules, f: Field): Verdict {
    rules(f.name, f.value)
  }

  /** The verdicts of the fields, in order. */
  function Verdicts(rules: Rules, fs: seq<Field>): (vs: seq<Verdict>)
    ensures |vs| == |fs|
  {
    seq(|fs|, k requires 0 <= k < |fs| => Check(rules, fs[k]))
  }

  /** A field after a verdict: its error flag is the negated verdict and
      nothing else about it changes. */
  function Marked(f: Field, v: Verdict): (g: Field)
    ensures g.error == !v.isValid
    ensures g.(error := f.error) == f
  {
    f.(error := !v.isValid)
  }

  /** The fields after the first `i` of them have received their verdicts. */
  function MarkedUpTo(fs: seq<Field>, vs: seq<Verdict>, i: nat): (r: seq<Field>)
    requires |vs| == |fs| && i <= |fs|
    ensures |r| == |fs|
    ensures forall k | 0 <= k < i :: r[k] == Marked(fs[k], vs[k])
    ensures forall k | i <= k < |fs| :: r[k] == fs[k]
  {
    seq(|fs|, k requires 0 <= k < |fs| => if k < i then Marked(fs[k], vs[k]) else fs[k])
  }

  lemma MarkedUpToStep(fs: seq<Field>, vs: seq<Verdict>, i: nat)
    requires |vs| == |fs| && i < |fs|
    ensures MarkedUpTo(fs, vs, i)[i := Marked(fs[i], vs[i])] == MarkedUpTo(fs, vs, i + 1)
  {
  }

  /** The error slots after a verdict for `name` is written; a name without
      a slot leaves them as they are. */
  function Reported(slots: map<string, ErrorSlot>, name: string, v: Verdict): (r: map<string, ErrorSlot>)
    ensures r.Keys == slots.Keys
    ensures name in slots ==> r[name] == ErrorSlot(v.message, !v.isValid)
    ensures forall n | n in slots && n != name :: r[n] == slots[n]
  {
    if name in slots then slots[name := ErrorSlot(v.message, !v.isValid)] else slots
  }

  /** The error slots after each field of `fs` has its verdict of `vs`
      written, in order. */
  function ReportedAll(slots: map<string, ErrorSlot>, fs: seq<Field>, vs: seq<Verdict>): (r: map<string, ErrorSlot>)
    requires |vs| == |fs|
    ensures forall n | n in slots && NoFieldNamed(fs, n) :: n in r && r[n] == slots[n]
  {
    if fs == [] then slots
    else
      var last := |fs| - 1;
      Reported(ReportedAll(slots, fs[..last], vs[..last]), fs[last].name, vs[last])
  }

  /** No field of `fs` is called `n`. */
  predicate NoFieldNamed(fs: seq<Field>, n: string) {
    forall k | 0 <= k < |fs| :: fs[k].name != n
  }

  predicate AllValid(vs: seq<Verdict>) {
    forall k | 0 <= k < |vs| :: vs[k].isValid
  }

  predicate DistinctNames(fs: seq<Field>) {
    forall i, j | 0 <= i < j < |fs| :: fs[i].name != fs[j].name
  }

  /** Submitting checks every field, not only up to the first failure: when
      the names are distinct, every field that has an error slot finds its
      own verdict there afterwards. */
  lemma {:induction false} EverySlotReported(slots: map<string, ErrorSlot>, fs: seq<Field>, vs: seq<Verdict>, k: nat)
    requires |vs| == |fs| && DistinctNames(fs) && k < |fs| && fs[k].name in slots
    ensures fs[k].name in ReportedAll(slots, fs, vs)
    ensures ReportedAll(slots, fs, vs)[fs[k].name] == ErrorSlot(vs[k].message, !vs[k].isValid)
    decreases |fs|
  {
    var last := |fs| - 1;
    var before := ReportedAll(slots, fs[..last], vs[..last]);
    assert ReportedAll(slots, fs, vs) == Reported(before, fs[last].name, vs[last]);
    ReportedKeys(slots, fs[..last], vs[..last]);
    if k < last {
      assert fs[k].name != fs[last].name;
      DistinctPrefix(fs, last);
      assert fs[..last][k] == fs[k] && vs[..last][k] == vs[k];
      EverySlotReported(slots, fs[..last], vs[..last], k);
    }
  }

  lemma DistinctPrefix(fs: seq<Field>, n: nat)
    requires DistinctNames(fs) && n <= |fs|
    ensures DistinctNames(fs[..n])
  {
    var init := fs[..n];
    forall i, j | 0 <= i < j < |init| ensures init[i].name != init[j].name {
      assert init[i] == fs[i] && init[j] == fs[j];
    }
  }

  /** Writing one more verdict extends the slots of the prefix. */
  lemma ReportedAllStep(slots: map<string, ErrorSlot>, fs: seq<Field>, vs: seq<Verdict>, i: nat)
    requires |vs| == |fs| && i < |fs|
    ensures ReportedAll(slots, fs[..i + 1], vs[..i + 1]) == Reported(ReportedAll(slots, fs[..i], vs[..i]), fs[i].name, vs[i])
  {
    assert fs[..i + 1][..i] == fs[..i];
    assert vs[..i + 1][..i] == vs[..i];
  }

  lemma AllValidStep(vs: seq<Verdict>, i: nat)
    requires i < |vs|
    ensures AllValid(vs[..i + 1]) == (AllValid(vs[..i]) && vs[i].isValid)
  {
    var longer, shorter := vs[..i + 1], vs[..i];
    if AllValid(longer) {
      forall k | 0 <= k < |shorter| ensures shorter[k].isValid {
        assert shorter[k] == longer[k];
      }
      assert longer[i] == vs[i];
    }
  }

  lemma {:induction false} ReportedKeys(slots: map<string, ErrorSlot>, fs: seq<Field>, vs: seq<Verdict>)
    requires |vs| == |fs|
    ensures ReportedAll(slots, fs, vs).Keys == slots.Keys
    decreases |fs|
  {
    if fs != [] {
      ReportedKeys(slots, fs[..|fs| - 1], vs[..|fs| - 1]);
    }
  }

  /** What validating the fields one after another has produced once the
      first `i` of them are done: the fields, the error slots and whether
      every verdict so far passed. */
  datatype Progress = Progress(fields: seq<Field>, slots: map<string, ErrorSlot>, allValid: bool)

  function Validating(fs: seq<Field>, vs: seq<Verdict>, slots: map<string, ErrorSlot>, i: nat): (p: Progress)
    requires |vs| == |fs| && i <= |fs|
    ensures |p.fields| == |fs|
    ensures forall k | i <= k < |fs| :: p.fields[k] == fs[k]
  {
    if i == 0 then Progress(fs, slots, true)
    else
      var p := Validating(fs, vs, slots, i - 1);
      var v := vs[i - 1];
      Progress(p.fields[i - 1 := Marked(fs[i - 1], v)], Reported(p.slots, fs[i - 1].name, v), p.allValid && v.isValid)
  }

  /** Validating the fields in order marks each of them... */
  lemma {:induction false} ValidatingMarks(fs: seq<Field>, vs: seq<Verdict>, slots: map<string, ErrorSlot>, i: nat)
    requires |vs| == |fs| && i <= |fs|
    ensures Validating(fs, vs, slots, i).fields == MarkedUpTo(fs, vs, i)
    decreases i
  {
    if i > 0 {
      ValidatingMarks(fs, vs, slots, i - 1);
      MarkedUpToStep(fs, vs, i - 1);
    }
  }

  /** ... reports each verdict in its slot, in order ... */
  lemma {:induction false} ValidatingReports(fs: seq<Field>, vs: seq<Verdict>, slots: map<string, ErrorSlot>, i: nat)
    requires |vs| == |fs| && i <= |fs|
    ensures Validating(fs, vs, slots, i).slots == ReportedAll(slots, fs[..i], vs[..i])
    decreases i
  {
    if i > 0 {
      ValidatingReports(fs, vs, slots, i - 1);
      ReportedAllStep(slots, fs, vs, i - 1);
    }
  }

  /** ... and passes exactly when every field does. */
  lemma {:induction false} ValidatingPasses(fs: seq<Field>, vs: seq<Verdict>, slots: map<string, ErrorSlot>, i: nat)
    requires |vs| == |fs| && i <= |fs|
    ensures Validating(fs, vs, slots, i).allValid == AllValid(vs[..i])
    decreases i
  {
    if i > 0 {
      ValidatingPasses(fs, vs, slots, i - 1);
      AllValidStep(vs, i - 1);
    }
  }

  /** Once every field is done, each field is marked with its own verdict,
      every verdict is reported in order, and the form passes exactly when
      every field does. */
  lemma ValidatingAll(rules: Rules, fs: seq<Field>, slots: map<string, ErrorSlot>)
    ensures var p := Validating(fs, Verdicts(rules, fs), slots, |fs|);
      && |p.fields| == |fs|
      && (forall k | 0 <= k < |fs| :: p.fields[k] == Marked(fs[k], Check(rules, fs[k])))
      && p.slots == ReportedAll(slots, fs, Verdicts(rules, fs))
      && p.allValid == AllValid(Verdicts(rules, fs))
  {
    var vs, n := Verdicts(rules, fs), |fs|;
    assert fs[..n] == fs && vs[..n] == vs;
    ValidatingMarks(fs, vs, slots, n);
    ValidatingReports(fs, vs, slots, n);
    ValidatingPasses(fs, vs, slots, n);
  }

  /** A field left blank whose name is one the form checks keeps the form
      from being sent. */
  lemma BlankFieldBlocksSending(fs: seq<Field>, k: nat)
    requires k < |fs| && fs[k].name in CheckedFields && IsBlank(fs[k].value)
    ensures !AllValid(Verdicts(ValidateValue, fs))
  {
    assert Verdicts(ValidateValue, fs)[k] == ValidateValue(fs[k].name, fs[k].value);
  }

  class ContactForm {
    var fields: seq<Field>
    /** Error slots by the field name they serve. */
    var errorSlots: map<string, ErrorSlot>
    /** The status line; it only changes when the page has one. */
    var status: StatusLine
    const hasStatus: bool
    /** The rules the form validates with. */
    const rules: Rules

    constructor (fields: seq<Field>, errorSlots: map<string, ErrorSlot>, hasStatus: bool, status: StatusLine)
      ensures this.fields == fields && this.errorSlots == errorSlots
      ensures this.hasStatus == hasStatus && this.status == status
      ensures rules == ValidateValue
    {
      this.rules := ValidateValue;
      this.fields := fields;
      this.errorSlots := errorSlots;
      this.hasStatus := hasStatus;
      this.status := status;
    }

    /** The status line after a message of some kind is shown. */
    function Posted(text: string, kind: string): (line: StatusLine)
      reads this
      ensures hasStatus ==> line.shown && line.text == text && line.kind == kind
      ensures !hasStatus ==> line == status
    {
      if hasStatus then StatusLine(text, kind, true) else status
    }

    /** Validates field `i` (on blur, and for each field on submit). */
    method ValidateField(i: nat) returns (isValid: bool)
      requires i < |fields|
      modifies this
      ensures isValid == Check(rules, old(fields[i])).isValid
      ensures fields == old(fields)[i := Marked(old(fields[i]), Check(rules, old(fields[i])))]
      ensures errorSlots == Reported(old(errorSlots), old(fields[i]).name, Check(rules, old(fields[i])))
      ensures status == old(status)
    {
      var field := fields[i];
      var verdict := rules(field.name, field.value);
      if field.name in errorSlots {
        errorSlots := errorSlots[field.name := ErrorSlot(verdict.message, !verdict.isValid)];
      }
      fields := fields[i := field.(error := !verdict.isValid)];
      isValid := verdict.isValid;
    }

    /** Editing field `i` clears its error without validating it again. */
    method ClearError(i: nat)
      requires i < |fields|
      modifies this
      ensures fields == old(fields)[i := old(fields[i]).(error := false)]
      ensures errorSlots == if old(fields[i]).name in old(errorSlots)
        then old(errorSlots)[old(fields[i]).name := ErrorSlot("", false)]
        else old(errorSlots)
      ensures status == old(status)
    {
      var name := fields[i].name;
      if name in errorSlots {
        errorSlots := errorSlots[name := ErrorSlot("", false)];
      }
      fields := fields[i := fields[i].(error := false)];
    }

    /** Shows a message in the status line; a success message is hidden
        again after a delay, which is returned. */
    method ShowMessage(text: string, kind: string) returns (hideAfter: Option<nat>)
      modifies this
      ensures status == old(Posted(text, kind))
      ensures hideAfter == if hasStatus && kind == "success" then Some(HideDelay) else None
      ensures fields == old(fields) && errorSlots == old(errorSlots)
    {
      if !hasStatus {
        return None;
      }
      status := StatusLine(text, kind, true);
      hideAfter := if kind == "success" then Some(HideDelay) else None;
    }

    /** The first half of a submission: every field is validated in
        order, none skipped, and the result says whether all passed. */
    method ValidateAll() returns (allValid: bool)
      modifies this
      ensures Progress(fields, errorSlots, allValid) == Validating(old(fields), Verdicts(rules, old(fields)), old(errorSlots), |old(fields)|)
      ensures status == old(status)
    {
      allValid := true;
      ghost var fs := fields;
      ghost var vs := Verdicts(rules, fs);
      ghost var slots := errorSlots;
      var i := 0;
      while i < |fields|
        invariant 0 <= i <= |fs| == |fields| == |vs| && vs == Verdicts(rules, fs)
        invariant Progress(fields, errorSlots, allValid) == Validating(fs, vs, slots, i)
        invariant status == old(status)
      {
        allValid := ValidateNext(i, allValid, fs, vs, slots);
        i := i + 1;
      }
      assert i == |fs|;
    }

    /** The per-field step of a submission: validates field `i` and
        clears the running result when it fails. */
    method ValidateNext(i: nat, allValid: bool, ghost fs: seq<Field>, ghost vs: seq<Verdict>, ghost slots: map<string, ErrorSlot>)
      returns (stillValid: bool)
      requires |vs| == |fs| && i < |fs| && vs == Verdicts(rules, fs)
      requires Progress(fields, errorSlots, allValid) == Validating(fs, vs, slots, i)
      modifies this
      ensures Progress(fields, errorSlots, stillValid) == Validating(fs, vs, slots, i + 1)
      ensures status == old(status)
    {
      assert fields[i] == fs[i] && vs[i] == Check(rules, fs[i]);
      stillValid := allValid;
      var ok := ValidateField(i);
      if !ok {
        stillValid := false;
      }
    }

    /** Submits the form: validates every field, then either reports the
        errors or shows the sending message and returns the delay after
        which sending completes. */
    method HandleSubmit() returns (sendAfter: Option<nat>)
      modifies this
      ensures |fields| == |old(fields)|
      ensures forall k | 0 <= k < |fields| :: fields[k] == Marked(old(fields)[k], Check(rules, old(fields)[k]))
      ensures errorSlots == ReportedAll(old(errorSlots), old(fields), Verdicts(rules, old(fields)))
      ensures sendAfter.Some? <==> AllValid(Verdicts(rules, old(fields)))
      ensures AllValid(Verdicts(rules, old(fields))) ==> sendAfter == Some(SendDelay) && status == old(Posted(SendingText, "info"))
      ensures !AllValid(Verdicts(rules, old(fields))) ==> status == old(Posted(FixErrorsText, "error"))
    {
      ValidatingAll(rules, fields, errorSlots);
      var isFormValid := ValidateAll();
      if !isFormValid {
        var _ := ShowMessage(FixErrorsText, "error");
        return None;
      }
      var _ := ShowMessage(SendingText, "info");
      sendAfter := Some(SendDelay);
    }

    /** The end of the simulated send: the success message is shown and
        every field goes back to its default value. */
    method FinishSending() returns (hideAfter: Option<nat>)
      modifies this
      ensures status == old(Posted(SentText, "success"))
      ensures hideAfter == if hasStatus then Some(HideDelay) else None
      ensures |fields| == |old(fields)|
      ensures forall k | 0 <= k < |fields| :: fields[k] == old(fields)[k].(value := old(fields)[k].defaultValue)
      ensures errorSlots == old(errorSlots)
    {
      hideAfter := ShowMessage(SentText, "success");
      fields := seq(|fields|, k requires 0 <= k < |fields| reads this => fields[k].(value := fields[k].defaultValue));
    }

    /** The delayed hiding of a success message. */
    method HideMessage()
      requires hasStatus
      modifies this
      ensures status == old(status).(shown := false)
      ensures fields == old(fields) && errorSlots == old(errorSlots)
    {
      status := status.(shown := false);
    }
  }
}
