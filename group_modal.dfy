/**
 * The group-creation modal (src/components/GroupModal/AddGroup.tsx) as a state
 * machine: its React state is the fields of `CreateGroupModal`, each handler is
 * a method, and each effect is a method run when its dependency changes.
 */
module GroupModal {
  import opened Wrappers
  import opened GroupSchema

  /** A `{ value, label }` option of a select box (`label` is a keyword here, so it is `text`). */
  datatype SelectOption = SelectOption(value: string, text: string)

  /** The file the uploader hands over; only its name is used. */
  datatype UploadFile = UploadFile(name: string)

  /** How the storage upload resolves: refused, or stored at `fullPath`. */
  datatype UploadResult = UploadFailed | Uploaded(fullPath: string)

  /** The states that have no counties: none chosen, or the nationwide scope. */
  predicate NoCountyScope(state: string)
  {
    state == "" || state == "National"
  }

  class CreateGroupModal {
    /** The blob-store base URL the uploaded file's path is appended to. */
    const blobUrl: string
    /** The county table of the reference data. */
    const getCounties: string -> seq<SelectOption>

    var isOpen: bool
    var loading: bool
    var validationErrors: ErrorMap
    var input: GroupInput
    var countyIsDisabled: bool
    var availableCounties: seq<SelectOption>

    /** The options the county selector offers for `state`. */
    function CountyOptions(state: string): seq<SelectOption>
    {
      if NoCountyScope(state) then [] else getCounties(state)
    }

    /** The county selector agrees with the chosen state. */
    predicate CountyInSync()
      reads this
    {
      countyIsDisabled == NoCountyScope(input.state) && availableCounties == CountyOptions(input.state)
    }

    /**
     * Mounting: the state starts at its initial values and both effects run
     * once, the county effect first.
     */
    constructor (blobUrl: string, getCounties: string -> seq<SelectOption>)
      ensures this.blobUrl == blobUrl && this.getCounties == getCounties
      ensures input == DefaultFormValues && validationErrors == map[]
      ensures !isOpen && !loading && countyIsDisabled && availableCounties == []
      ensures CountyInSync()
    {
      this.blobUrl := blobUrl;
      this.getCounties := getCounties;
      isOpen := false;
      loading := false;
      validationErrors := map[];
      input := DefaultFormValues;
      countyIsDisabled := true;
      availableCounties := [];
      new;
      SyncCounties();
      ResetOnToggle();
    }

    /** `handleInputChange`: writes one field and sets that field's error to `null`. */
    method HandleInputChange(u: FieldUpdate)
      modifies this`input, this`validationErrors
      ensures input == Apply(old(input), u)
      ensures forall f :: Get(input, f) == if f == FieldOf(u) then ValueOf(u) else Get(old(input), f)
      ensures validationErrors == old(validationErrors)[FieldOf(u) := None]
    {
      ApplyIsLocal(input, u);
      input := Apply(input, u);
      validationErrors := validationErrors[FieldOf(u) := None];
    }

    /**
     * The effect on `state`: the county is cleared along with its error, and
     * the selector is disabled and emptied for no state or "National", or
     * enabled with that state's counties otherwise.
     */
    method SyncCounties()
      modifies this`input, this`validationErrors, this`countyIsDisabled, this`availableCounties
      ensures input == old(input).(county := "")
      ensures validationErrors == old(validationErrors)[County := None]
      ensures countyIsDisabled == NoCountyScope(input.state)
      ensures availableCounties == CountyOptions(input.state)
      ensures CountyInSync()
    {
      if input.state == "" || input.state == "National" {
        countyIsDisabled := true;
        HandleInputChange(SetCounty(""));
        availableCounties := [];
      } else {
        countyIsDisabled := false;
        HandleInputChange(SetCounty(""));
        availableCounties := getCounties(input.state);
      }
    }

    /**
     * A user edit: the handler runs, and when it changed the state's value the
     * county effect runs after it.
     */
    method Edit(u: FieldUpdate)
      requires CountyInSync()
      modifies this`input, this`validationErrors, this`countyIsDisabled, this`availableCounties
      ensures u.SetState? && u.state != old(input).state ==>
        && input == old(input).(state := u.state, county := "")
        && validationErrors == old(validationErrors)[State := None][County := None]
        && countyIsDisabled == NoCountyScope(u.state)
        && availableCounties == CountyOptions(u.state)
      ensures !(u.SetState? && u.state != old(input).state) ==>
        && input == Apply(old(input), u)
        && validationErrors == old(validationErrors)[FieldOf(u) := None]
        && countyIsDisabled == old(countyIsDisabled)
        && availableCounties == old(availableCounties)
      ensures CountyInSync()
    {
      var previousState := input.state;
      HandleInputChange(u);
      if input.state != previousState {
        SyncCounties();
      }
    }

    /** The effect on `isOpen`: the error map is emptied and the spinner stopped. */
    method ResetOnToggle()
      modifies this`validationErrors, this`loading
      ensures validationErrors == map[] && !loading
    {
      validationErrors := map[];
      loading := false;
    }

    /**
     * `onOpen` / `onClose`: the modal's visibility becomes `open`, and when it
     * changed the reset effect runs; the record is kept either way.
     */
    method SetOpen(open: bool)
      requires CountyInSync()
      modifies this`isOpen, this`validationErrors, this`loading
      ensures isOpen == open
      ensures open != old(isOpen) ==> validationErrors == map[] && !loading
      ensures open == old(isOpen) ==> validationErrors == old(validationErrors) && loading == old(loading)
      ensures CountyInSync()
    {
      if open != isOpen {
        isOpen := open;
        ResetOnToggle();
      }
    }

    /**
     * `handleSingleChange` up to the upload call: with a file, the spinner
     * starts and the target path is returned; without one nothing happens.
     * `random` stands for the text of `Math.random()`.
     */
    method HandleSingleChange(file: Option<UploadFile>, random: string) returns (target: Option<string>)
      requires CountyInSync()
      modifies this`loading
      ensures file.None? ==> target.None? && loading == old(loading)
      ensures file.Some? ==> target == Some(UploadPath(random, file.value.name)) && loading
      ensures CountyInSync()
    {
      if file.Some? {
        loading := true;
        target := Some(UploadPath(random, file.value.name));
      } else {
        target := None;
      }
    }

    /**
     * The rest of `handleSingleChange`, once the upload resolves: on failure the
     * photo keeps its value and its error becomes `SpecialCharacters`; on
     * success the photo becomes the stored file's URL and its error is cleared.
     * The spinner stops in both cases. Results are applied in the order they
     * arrive; nothing tells a late result from a current one.
     */
    method UploadResolved(result: UploadResult)
      requires CountyInSync()
      modifies this`input, this`validationErrors, this`loading
      ensures !loading
      ensures result.UploadFailed? ==>
        input == old(input) && validationErrors == old(validationErrors)[DisplayPhoto := Some(SpecialCharacters)]
      ensures result.Uploaded? ==>
        && input == old(input).(displayPhoto := Some(blobUrl + "/" + result.fullPath))
        && validationErrors == old(validationErrors)[DisplayPhoto := None]
      ensures CountyInSync()
    {
      match result
      case UploadFailed =>
        validationErrors := validationErrors[DisplayPhoto := Some(SpecialCharacters)];
        loading := false;
      case Uploaded(fullPath) =>
        HandleInputChange(SetDisplayPhoto(Some(blobUrl + "/" + fullPath)));
        loading := false;
    }

    /** `handleSingleDelete`: the photo becomes `null` and its error is cleared. */
    method HandleSingleDelete()
      requires CountyInSync()
      modifies this`input, this`validationErrors
      ensures input == old(input).(displayPhoto := None)
      ensures validationErrors == old(validationErrors)[DisplayPhoto := None]
      ensures FieldCheck(input, DisplayPhoto) == Some(ReceivedNull)
      ensures CountyInSync()
    {
      HandleInputChange(SetDisplayPhoto(None));
    }

    /**
     * `handleSubmit`: a record the schema accepts closes the modal (and the
     * close runs the reset effect when the modal was open); otherwise the error
     * map is replaced by one built from the schema's issues. The record itself
     * never changes.
     */
    method HandleSubmit()
      requires CountyInSync()
      modifies this`isOpen, this`validationErrors, this`loading
      ensures Validate(input) == [] ==>
        && !isOpen
        && (old(isOpen) ==> validationErrors == map[] && !loading)
        && (!old(isOpen) ==> validationErrors == old(validationErrors) && loading == old(loading))
      ensures Validate(input) != [] ==>
        && isOpen == old(isOpen) && loading == old(loading)
        && validationErrors == ErrorMapOf(Validate(input))
        && (forall f :: f in validationErrors <==> FieldCheck(input, f).Some?)
        && (forall f :: f in validationErrors ==> validationErrors[f] == FieldCheck(input, f))
      ensures CountyInSync()
    {
      var issues := Validate(input);
      if issues == [] {
        SetOpen(false);
      } else {
        var errorMap := BuildErrorMap(issues);
        validationErrors := errorMap;
        SubmitErrorsMatchSchema(input);
      }
    }
  }
}
