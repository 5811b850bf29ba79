/**
 * The product form: its six controls, the id control's error dictionary, the asynchronous
 * uniqueness check of the id and the value the form emits on submit. Angular's synchronous
 * validators are not modelled: whatever errors they give the id control come in as inputs.
 */
module FormProduct {

  import opened Nullable
  import opened ProductModel
  import RevisionDate

  /** What one entry of an error dictionary carries. */
  datatype ErrorDetail = Flag(on: bool) | LengthBound(requiredLength: nat, actualLength: nat)

  /** A control's `errors`: `null`, or a dictionary from rule name to detail. */
  type Errors = Option<map<string, ErrorDetail>>

  /** The key the uniqueness check owns. */
  const IdValidation := "idValidation"

  /** The dictionary of an `errors` value, `{}` for `null`. */
  function Entries(errors: Errors): map<string, ErrorDetail>
  {
    match errors
    case None => map[]
    case Some(m) => m
  }

  /** The entries an `errors` value holds besides `idValidation`. */
  function Others(errors: Errors): map<string, ErrorDetail>
  {
    Entries(errors) - {IdValidation}
  }

  /**
   * The `next` handler of the id check: `taken` is what `verificationID` answered. A `true`
   * merges `idValidation: true` into the errors; a `false` removes just that key, leaving
   * `null` once no key remains. Every other entry is kept as it was.
   */
  function ApplyCheck(errors: Errors, taken: bool): (r: Errors)
    ensures Others(r) == Others(errors)
    ensures taken ==> r.Some? && IdValidation in r.value && r.value[IdValidation] == Flag(true)
    ensures !taken ==> IdValidation !in Entries(r)
    ensures !taken ==> (r.None? <==> Others(errors) == map[])
  {
    if taken then
      var merged := Entries(errors)[IdValidation := Flag(true)];
      assert merged - {IdValidation} == Others(errors);
      Some(merged)
    else if errors.Some? then
      var rest := errors.value - {IdValidation};
      assert rest - {IdValidation} == rest;
      if |rest| > 0 then Some(rest) else None
    else
      None
  }

  /** Two dictionaries that agree besides `idValidation` agree once it is set in both. */
  lemma SetFlagOverrides(a: map<string, ErrorDetail>, b: map<string, ErrorDetail>)
    requires a - {IdValidation} == b - {IdValidation}
    ensures a[IdValidation := Flag(true)] == b[IdValidation := Flag(true)]
  {
    forall k | k != IdValidation
      ensures k in a <==> k in a - {IdValidation}
      ensures k in b <==> k in b - {IdValidation}
    {
    }
  }

  /** The handler's result depends only on the other entries, never on a previous flag. */
  lemma ApplyCheckIgnoresFlag(a: Errors, b: Errors, taken: bool)
    requires Others(a) == Others(b)
    ensures ApplyCheck(a, taken) == ApplyCheck(b, taken)
  {
    if taken {
      SetFlagOverrides(Entries(a), Entries(b));
    } else {
      var ra, rb := ApplyCheck(a, false), ApplyCheck(b, false);
      assert Entries(ra) == Others(ra) && Entries(rb) == Others(rb);
    }
  }

  /** Only the last answer matters: applying two answers in turn is applying the second. */
  lemma LastAnswerWins(errors: Errors, first: bool, second: bool)
    ensures ApplyCheck(ApplyCheck(errors, first), second) == ApplyCheck(errors, second)
  {
    ApplyCheckIgnoresFlag(ApplyCheck(errors, first), errors, second);
  }

  /** Setting and then clearing the flag gives back errors that never had it, or `null` for `{}`. */
  lemma SetThenClear(errors: map<string, ErrorDetail>)
    requires IdValidation !in errors
    ensures ApplyCheck(ApplyCheck(Some(errors), true), false) == if |errors| == 0 then None else Some(errors)
  {
    var r := ApplyCheck(ApplyCheck(Some(errors), true), false);
    assert Entries(r) == errors;
    if |errors| == 0 {
      assert errors == map[];
    } else {
      var k :| k in errors;
      assert k in Entries(r);
    }
  }

  /** With no errors, clearing the flag leaves no errors and setting it gives just the flag. */
  lemma NoErrors()
    ensures ApplyCheck(None, false) == None
    ensures ApplyCheck(None, true) == Some(map[IdValidation := Flag(true)])
  {
  }

  /** `{required: true}` becomes `{required: true, idValidation: true}` and back. */
  lemma MergeWithRequired()
    ensures ApplyCheck(Some(map["required" := Flag(true)]), true)
            == Some(map["required" := Flag(true), IdValidation := Flag(true)])
    ensures ApplyCheck(Some(map["required" := Flag(true), IdValidation := Flag(true)]), false)
            == Some(map["required" := Flag(true)])
  {
    var merged := map["required" := Flag(true), IdValidation := Flag(true)];
    assert merged - {IdValidation} == map["required" := Flag(true)];
  }

  /** An id is handed to `verificationID` only when it is longer than two characters. */
  predicate ReachesCheck(id: Option<string>): (r: bool)
    ensures r ==> id.Some? && |id.value| >= 3
    ensures id.Some? && |id.value| >= 3 ==> r
  {
    id.Some? && |id.value| > 2
  }

  /** `getSearchErrors`: the errors of the `search` control, or `null` when there is none. */
  function GetSearchErrors(controls: map<string, Errors>): (r: Errors)
    ensures "search" in controls ==> r == controls["search"]
    ensures "search" !in controls ==> r.None?
  {
    if "search" in controls then controls["search"] else None
  }

  /** A control's value: `null` or a string. */
  type Value = Option<string>

  const IdKey := "id"
  const NameKey := "name"
  const DescriptionKey := "description"
  const LogoKey := "logo"
  const ReleaseKey := "date_release"
  const RevisionKey := "date_revision"

  class ProductFormComponent {
    /** The `edit` input. */
    var edit: bool
    /** The control values. */
    var id: Value
    var name: Value
    var description: Value
    var logo: Value
    var dateRelease: Value
    var dateRevision: Value
    /** Whether the id control is disabled. */
    var idDisabled: bool
    /** The id control's `errors`. */
    var idErrors: Errors
    /** Every id handed to `verificationID`, oldest first; the last is the one switchMap follows. */
    var checksSent: seq<string>
    /** Whether the id subscription is still open; an error from the check ends it. */
    var watching: bool

    ghost predicate Valid()
      reads this
    {
      && idDisabled == edit
      && forall i :: 0 <= i < |checksSent| ==> |checksSent[i]| > 2
    }

    /**
     * `ngOnInit` / `initForm`: the controls start from the product input, or `null` without
     * one; `validatorErrors` is what the id control's validators make of its first value.
     * In edit mode the id control is disabled, and a disabled control has no errors.
     */
    constructor (edit: bool, product: Option<Product>, validatorErrors: Errors)
      ensures Valid()
      ensures this.edit == edit && idDisabled == edit
      ensures product.None? ==>
        id == name == description == logo == dateRelease == dateRevision == None
      ensures product.Some? ==>
        && id == Some(product.value.id) && name == Some(product.value.name)
        && description == Some(product.value.description) && logo == Some(product.value.logo)
        && dateRelease == Some(product.value.dateRelease)
        && dateRevision == Some(product.value.dateRevision)
      ensures idErrors == (if edit then None else validatorErrors)
      ensures checksSent == [] && watching
    {
      this.edit := edit;
      if product.None? {
        id, name, description, logo, dateRelease, dateRevision := None, None, None, None, None, None;
      } else {
        var p := product.value;
        id, name, description, logo := Some(p.id), Some(p.name), Some(p.description), Some(p.logo);
        dateRelease, dateRevision := Some(p.dateRelease), Some(p.dateRevision);
      }
      idDisabled := edit;
      idErrors := if edit then None else validatorErrors;
      checksSent := [];
      watching := true;
    }

    /** The user changes the id; the validators replace its errors with `validatorErrors`. */
    method SetId(value: Value, validatorErrors: Errors)
      requires Valid()
      modifies this`id, this`idErrors
      ensures Valid()
      ensures id == value && idErrors == validatorErrors
    {
      id := value;
      idErrors := validatorErrors;
    }

    /**
     * The 500 ms quiet period after the last id change is over. A value longer than two
     * characters is sent to the check and supersedes every check still in flight; a shorter
     * one, or any value once the subscription has ended, is dropped and cancels nothing.
     */
    method IdSettled() returns (sent: Option<string>)
      requires Valid()
      modifies this`checksSent
      ensures Valid()
      ensures sent.Some? <==> watching && ReachesCheck(id)
      ensures sent.Some? ==> sent.value == id.value && checksSent == old(checksSent) + [id.value]
      ensures sent.None? ==> checksSent == old(checksSent)
    {
      if watching && id.Some? && |id.value| > 2 {
        checksSent := checksSent + [id.value];
        sent := id;
      } else {
        sent := None;
      }
    }

    /** Whether the answer to request number `ticket` is still the one switchMap listens to. */
    predicate IsCurrent(ticket: nat)
      reads this
    {
      watching && ticket == |checksSent| - 1
    }

    /** `verificationID` answered request number `ticket`; stale answers are discarded. */
    method CheckAnswered(ticket: nat, taken: bool)
      requires Valid()
      requires ticket < |checksSent|
      modifies this`idErrors
      ensures Valid()
      ensures IsCurrent(ticket) ==> idErrors == ApplyCheck(old(idErrors), taken)
      ensures !IsCurrent(ticket) ==> idErrors == old(idErrors)
    {
      if IsCurrent(ticket) {
        idErrors := ApplyCheck(idErrors, taken);
      }
    }

    /**
     * `verificationID` failed for request number `ticket`. The subscription has no error
     * handler, so a failure of the current request ends it; the errors are left as they are.
     */
    method CheckFailed(ticket: nat)
      requires Valid()
      requires ticket < |checksSent|
      modifies this`watching
      ensures Valid()
      ensures watching == (old(watching) && !old(IsCurrent(ticket)))
    {
      if IsCurrent(ticket) {
        watching := false;
      }
    }

    /** `form.value`: the values of the enabled controls. */
    function FormValue(): (m: map<string, Value>)
      reads this
      ensures m.Keys == {NameKey, DescriptionKey, LogoKey, ReleaseKey, RevisionKey}
                        + (if idDisabled then {} else {IdKey})
      ensures !idDisabled ==> m[IdKey] == id
      ensures m[NameKey] == name && m[DescriptionKey] == description && m[LogoKey] == logo
      ensures m[ReleaseKey] == dateRelease && m[RevisionKey] == dateRevision
    {
      var rest := map[NameKey := name, DescriptionKey := description, LogoKey := logo,
                       ReleaseKey := dateRelease, RevisionKey := dateRevision];
      if idDisabled then rest else rest[IdKey := id]
    }

    /**
     * `onSubmit`: the emitted product is `{id: <id control>, ...form.value}`. Its id is the
     * id control's value whether or not the control is disabled.
     */
    method OnSubmit() returns (emitted: map<string, Value>)
      ensures emitted.Keys == {IdKey, NameKey, DescriptionKey, LogoKey, ReleaseKey, RevisionKey}
      ensures emitted[IdKey] == id
      ensures emitted[NameKey] == name && emitted[DescriptionKey] == description
      ensures emitted[LogoKey] == logo
      ensures emitted[ReleaseKey] == dateRelease && emitted[RevisionKey] == dateRevision
    {
      emitted := map[IdKey := id] + FormValue();
    }

    /**
     * `calcdate_revision`: writes the release date plus one year into the revision control.
     * `ok` is false where `toISOString` throws on an Invalid Date, and then nothing changes.
     */
    method CalcDateRevision() returns (ok: bool)
      requires Valid()
      modifies this`dateRevision
      ensures Valid()
      ensures ok == RevisionDate.RevisionOf(dateRelease).Some?
      ensures ok ==> dateRevision == RevisionDate.RevisionOf(dateRelease)
      ensures !ok ==> dateRevision == old(dateRevision)
    {
      var revision := RevisionDate.RevisionOf(dateRelease);
      ok := revision.Some?;
      if ok {
        dateRevision := revision;
      }
    }
  }
}
