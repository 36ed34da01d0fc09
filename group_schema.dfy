/**
 * The pure half of the group-creation form (src/components/GroupModal/AddGroup.tsx):
 * the nine-field record, the declarative schema it is parsed against, the field
 * updates the handlers apply, the error map the submit handler builds from the
 * schema's issues, the rule that turns the photo error into display text, and
 * the shape of the upload target path.
 */
module GroupSchema {
  import opened Wrappers

  /** The keys of the record, in the order the schema declares them. */
  datatype Field = DisplayPhoto | Name | Description | Online | State | County | BranchOfService | Tags | Password

  const SchemaOrder: seq<Field> :=
    [DisplayPhoto, Name, Description, Online, State, County, BranchOfService, Tags, Password]

  /**
   * `CreateGroupType`. `displayPhoto` is `None` once the photo has been deleted
   * (the handler writes `null`); `password` is `None` while it is `undefined`.
   */
  datatype GroupInput = GroupInput(
    displayPhoto: Option<string>,
    name: string,
    description: string,
    online: bool,
    state: string,
    county: string,
    branchOfService: string,
    tags: seq<int>,
    password: Option<string>)

  /** `defaultFormValues`: every text empty, not online, no tags, no password. */
  const DefaultFormValues: GroupInput :=
    GroupInput(Some(""), "", "", false, "", "", "", [], None)

  // The messages of the schema. A string field that holds `null` is rejected by
  // the string type itself, before any length check, with `ReceivedNull`.
  const DisplayPhotoRequired := "Display photo is required"
  const NameRequired := "Group name is required"
  const NameTooLong := "Name must be at most 100 characters."
  const DescriptionRequired := "A description of the group is required"
  const StateRequired := "State is required."
  const BranchRequired := "Branch of service is required."
  const TagsRequired := "At least one tag is required."
  const PasswordTooShort := "Password must be at least 8 characters."
  const ReceivedNull := "Expected string, received null"

  /** What the upload handler writes into the photo error when the store refuses the file. */
  const SpecialCharacters := "Make sure your file name does not contain any special characters"
  /** What the form shows instead of a photo error whose text mentions "null". */
  const DisplayImageRequired := "Display image is required"

  /** One schema issue: the field it is about (`err.path[0]`) and its message. */
  datatype Issue = Issue(path: Field, message: string)

  /** The message of a `.min(n)` check on a string, or `None` when it passes. */
  function MinLength(s: string, n: nat, message: string): Option<string>
  {
    if |s| < n then Some(message) else None
  }

  /** The schema's verdict on one field: the message of its failing check, if any. */
  function FieldCheck(input: GroupInput, f: Field): Option<string>
  {
    match f
    case DisplayPhoto =>
      (match input.displayPhoto
       case None => Some(ReceivedNull)
       case Some(photo) => MinLength(photo, 1, DisplayPhotoRequired))
    case Name =>
      if |input.name| < 1 then Some(NameRequired)
      else if |input.name| > 100 then Some(NameTooLong)
      else None
    case Description => MinLength(input.description, 1, DescriptionRequired)
    case Online => None
    case State => MinLength(input.state, 1, StateRequired)
    case County => None
    case BranchOfService => MinLength(input.branchOfService, 1, BranchRequired)
    case Tags => if |input.tags| < 1 then Some(TagsRequired) else None
    case Password =>
      (match input.password
       case None => None
       case Some(password) => MinLength(password, 8, PasswordTooShort))
  }

  /** The schema declares every key of the record. */
  lemma SchemaCoversEveryField()
    ensures forall f: Field :: f in SchemaOrder
  {
    forall f: Field ensures f in SchemaOrder {
      var i := match f
        case DisplayPhoto => 0
        case Name => 1
        case Description => 2
        case Online => 3
        case State => 4
        case County => 5
        case BranchOfService => 6
        case Tags => 7
        case Password => 8;
      assert SchemaOrder[i] == f;
    }
  }

  /** At most one issue per field means no two issues share a path. */
  predicate DistinctPaths(issues: seq<Issue>)
  {
    forall a, b :: 0 <= a < b < |issues| ==> issues[a].path != issues[b].path
  }

  /** The issue one field contributes: none, or one carrying its message. */
  function FieldIssues(input: GroupInput, f: Field): seq<Issue>
  {
    match FieldCheck(input, f)
    case None => []
    case Some(message) => [Issue(f, message)]
  }

  /** Parses the given keys in order and collects every field's issue. */
  function CheckFields(input: GroupInput, fields: seq<Field>): (issues: seq<Issue>)
    ensures forall k :: 0 <= k < |issues| ==>
      issues[k].path in fields && FieldCheck(input, issues[k].path) == Some(issues[k].message)
  {
    if fields == [] then []
    else
      var rest := CheckFields(input, fields[1..]);
      assert forall k :: 0 <= k < |rest| ==> rest[k].path in fields[1..];
      FieldIssues(input, fields[0]) + rest
  }

  /** Every key whose check fails has its issue among those collected. */
  lemma {:induction false} CheckFieldsComplete(input: GroupInput, fields: seq<Field>, f: Field)
    requires f in fields && FieldCheck(input, f).Some?
    ensures exists k :: 0 <= k < |CheckFields(input, fields)| && CheckFields(input, fields)[k].path == f
  {
    var head: seq<Issue> := FieldIssues(input, fields[0]);
    var rest := CheckFields(input, fields[1..]);
    assert CheckFields(input, fields) == head + rest;
    if f == fields[0] {
      assert (head + rest)[0].path == f;
    } else {
      CheckFieldsComplete(input, fields[1..], f);
      var k :| 0 <= k < |rest| && rest[k].path == f;
      assert (head + rest)[|head| + k].path == f;
    }
  }

  /** Keys that are parsed once each give issues with distinct paths. */
  lemma {:induction false} CheckFieldsDistinct(input: GroupInput, fields: seq<Field>)
    requires forall i, j :: 0 <= i < j < |fields| ==> fields[i] != fields[j]
    ensures DistinctPaths(CheckFields(input, fields))
  {
    if fields != [] {
      var head: seq<Issue> := FieldIssues(input, fields[0]);
      var rest := CheckFields(input, fields[1..]);
      assert CheckFields(input, fields) == head + rest;
      CheckFieldsDistinct(input, fields[1..]);
      assert fields[0] !in fields[1..];
      assert forall k :: 0 <= k < |rest| ==> rest[k].path in fields[1..];
    }
  }

  /** Every check passes exactly when the record meets the schema's constraints. */
  lemma ChecksPassIff(input: GroupInput)
    ensures (forall f :: FieldCheck(input, f).None?) <==>
      && input.displayPhoto.Some? && |input.displayPhoto.value| >= 1
      && 1 <= |input.name| <= 100
      && |input.description| >= 1
      && |input.state| >= 1
      && |input.branchOfService| >= 1
      && |input.tags| >= 1
      && (input.password.None? || |input.password.value| >= 8)
  {
    assert FieldCheck(input, DisplayPhoto).None? <==> input.displayPhoto.Some? && |input.displayPhoto.value| >= 1;
    assert FieldCheck(input, Name).None? <==> 1 <= |input.name| <= 100;
    assert FieldCheck(input, Description).None? <==> |input.description| >= 1;
    assert FieldCheck(input, State).None? <==> |input.state| >= 1;
    assert FieldCheck(input, BranchOfService).None? <==> |input.branchOfService| >= 1;
    assert FieldCheck(input, Tags).None? <==> |input.tags| >= 1;
    assert FieldCheck(input, Password).None? <==> (input.password.None? || |input.password.value| >= 8);
    assert FieldCheck(input, Online).None? && FieldCheck(input, County).None?;
    forall f ensures FieldCheck(input, f).None? <== (
      && FieldCheck(input, DisplayPhoto).None? && FieldCheck(input, Name).None?
      && FieldCheck(input, Description).None? && FieldCheck(input, State).None?
      && FieldCheck(input, BranchOfService).None? && FieldCheck(input, Tags).None?
      && FieldCheck(input, Password).None?)
    {
    }
  }

  /**
   * `createGroupFormSchema.parse(input)`: the issues of the whole record. The
   * record passes exactly when the photo is a non-empty string, the name has 1
   * to 100 characters, description, state and branch are non-empty, there is a
   * tag, and the password is absent or has at least 8 characters.
   */
  function Validate(input: GroupInput): (issues: seq<Issue>)
    ensures issues == [] <==>
      && input.displayPhoto.Some? && |input.displayPhoto.value| >= 1
      && 1 <= |input.name| <= 100
      && |input.description| >= 1
      && |input.state| >= 1
      && |input.branchOfService| >= 1
      && |input.tags| >= 1
      && (input.password.None? || |input.password.value| >= 8)
    ensures forall f :: FieldCheck(input, f).Some? <==> exists k :: 0 <= k < |issues| && issues[k].path == f
    ensures forall k :: 0 <= k < |issues| ==> Some(issues[k].message) == FieldCheck(input, issues[k].path)
    ensures forall k :: 0 <= k < |issues| ==> issues[k].path != Online && issues[k].path != County
    ensures DistinctPaths(issues)
  {
    var issues := CheckFields(input, SchemaOrder);
    SchemaCoversEveryField();
    forall f | FieldCheck(input, f).Some?
      ensures exists k :: 0 <= k < |issues| && issues[k].path == f
    {
      CheckFieldsComplete(input, SchemaOrder, f);
    }
    CheckFieldsDistinct(input, SchemaOrder);
    ChecksPassIff(input);
    assert issues == [] <==> (forall f :: FieldCheck(input, f).None?) by {
      if issues != [] {
        assert FieldCheck(input, issues[0].path).Some?;
      }
    }
    issues
  }

  /** The error map: a field's message, or `None` for the `null` a field edit writes. */
  type ErrorMap = map<Field, Option<string>>

  /** The `forEach` of the submit handler: each issue writes its message under its path, later ones last. */
  function ErrorMapOf(issues: seq<Issue>): ErrorMap
  {
    if issues == [] then map[]
    else
      var last := issues[|issues| - 1];
      ErrorMapOf(issues[..|issues| - 1])[last.path := Some(last.message)]
  }

  /** Builds the submit handler's error map from the schema's issues, one issue at a time. */
  method BuildErrorMap(issues: seq<Issue>) returns (errorMap: ErrorMap)
    ensures errorMap == ErrorMapOf(issues)
  {
    errorMap := map[];
    var i := 0;
    while i < |issues|
      invariant 0 <= i <= |issues|
      invariant errorMap == ErrorMapOf(issues[..i])
    {
      assert issues[..i + 1][..i] == issues[..i];
      errorMap := errorMap[issues[i].path := Some(issues[i].message)];
      i := i + 1;
    }
    assert issues[..|issues|] == issues;
  }

  /** The fields the issues are about. */
  function Paths(issues: seq<Issue>): set<Field>
  {
    set k | 0 <= k < |issues| :: issues[k].path
  }

  /** The map's keys are the issues' paths; with distinct paths each key holds its issue's message. */
  lemma {:induction false} ErrorMapOfContents(issues: seq<Issue>)
    ensures ErrorMapOf(issues).Keys == Paths(issues)
    ensures DistinctPaths(issues) ==>
      forall k :: 0 <= k < |issues| ==> ErrorMapOf(issues)[issues[k].path] == Some(issues[k].message)
  {
    if issues != [] {
      var n := |issues| - 1;
      var front := issues[..n];
      ErrorMapOfContents(front);
      assert forall k :: 0 <= k < n ==> front[k] == issues[k];
      assert Paths(issues) == Paths(front) + {issues[n].path} by {
        forall f | f in Paths(issues)
          ensures f in Paths(front) + {issues[n].path}
        {
          var k :| 0 <= k < |issues| && issues[k].path == f;
          if k < n { assert front[k].path == f; }
        }
      }
    }
  }

  /**
   * The error map a failed submit installs: a key for exactly the fields the
   * schema rejects, each holding that field's message.
   */
  lemma SubmitErrorsMatchSchema(input: GroupInput)
    ensures forall f :: f in ErrorMapOf(Validate(input)) <==> FieldCheck(input, f).Some?
    ensures forall f :: f in ErrorMapOf(Validate(input)) ==> ErrorMapOf(Validate(input))[f] == FieldCheck(input, f)
  {
    var issues := Validate(input);
    ErrorMapOfContents(issues);
    forall f | f in ErrorMapOf(issues)
      ensures ErrorMapOf(issues)[f] == FieldCheck(input, f)
    {
      var k :| 0 <= k < |issues| && issues[k].path == f;
    }
  }

  /** The checks that fail on `defaultFormValues`. */
  lemma DefaultChecks()
    ensures forall f :: FieldCheck(DefaultFormValues, f).Some? <==>
      f in {DisplayPhoto, Name, Description, State, BranchOfService, Tags}
  {
    forall f ensures FieldCheck(DefaultFormValues, f).Some? <==>
      f in {DisplayPhoto, Name, Description, State, BranchOfService, Tags}
    {
      match f
      case DisplayPhoto =>
      case Name =>
      case Description =>
      case Online =>
      case State =>
      case County =>
      case BranchOfService =>
      case Tags =>
      case Password =>
    }
  }

  /** Submitting the untouched form reports exactly the six required fields, with the schema's messages. */
  lemma DefaultsFail()
    ensures forall f :: f in ErrorMapOf(Validate(DefaultFormValues)) <==>
      f in {DisplayPhoto, Name, Description, State, BranchOfService, Tags}
    ensures ErrorMapOf(Validate(DefaultFormValues))[DisplayPhoto] == Some(DisplayPhotoRequired)
    ensures ErrorMapOf(Validate(DefaultFormValues))[Name] == Some(NameRequired)
    ensures ErrorMapOf(Validate(DefaultFormValues))[Description] == Some(DescriptionRequired)
    ensures ErrorMapOf(Validate(DefaultFormValues))[State] == Some(StateRequired)
    ensures ErrorMapOf(Validate(DefaultFormValues))[BranchOfService] == Some(BranchRequired)
    ensures ErrorMapOf(Validate(DefaultFormValues))[Tags] == Some(TagsRequired)
  {
    SubmitErrorsMatchSchema(DefaultFormValues);
    DefaultChecks();
  }

  /** JavaScript's `s.includes(part)`. */
  predicate Contains(s: string, part: string)
    decreases |s|
  {
    |part| <= |s| && (s[..|part|] == part || Contains(s[1..], part))
  }

  lemma {:induction false} ContainsAtEnd(prefix: string, part: string)
    ensures Contains(prefix + part, part)
  {
    if prefix == [] {
      assert (prefix + part)[..|part|] == part;
    } else {
      assert (prefix + part)[1..] == prefix[1..] + part;
      ContainsAtEnd(prefix[1..], part);
    }
  }

  /**
   * The text shown under the banner image: nothing unless the photo error is a
   * non-empty string; a message that mentions "null" is shown as
   * `DisplayImageRequired`, any other message as it is.
   */
  function PhotoErrorText(errors: ErrorMap): Option<string>
  {
    if DisplayPhoto in errors && errors[DisplayPhoto].Some? && errors[DisplayPhoto].value != "" then
      var message := errors[DisplayPhoto].value;
      Some(if Contains(message, "null") then DisplayImageRequired else message)
    else
      None
  }

  /**
   * After the photo is deleted, a submit reports the photo as missing and the
   * form shows "Display image is required", whatever the other fields hold.
   */
  lemma DeletedPhotoShowsRequired(input: GroupInput)
    ensures FieldCheck(input.(displayPhoto := None), DisplayPhoto) == Some(ReceivedNull)
    ensures PhotoErrorText(ErrorMapOf(Validate(input.(displayPhoto := None)))) == Some(DisplayImageRequired)
  {
    var deleted := input.(displayPhoto := None);
    SubmitErrorsMatchSchema(deleted);
    assert ReceivedNull == "Expected string, received " + "null";
    ContainsAtEnd("Expected string, received ", "null");
  }

  /** A password typed and then cleared is the empty string, not `undefined`, and blocks the submit. */
  lemma ClearedPasswordBlocksSubmit(input: GroupInput)
    ensures FieldCheck(input.(password := Some("")), Password) == Some(PasswordTooShort)
    ensures Validate(input.(password := Some(""))) != []
  {
  }

  /** The folder every banner is uploaded into. */
  const BannerFolder := "group-banners/"

  /** The upload target `group-banners/${random}-${fileName}`, split back into its three parts. */
  function UploadPath(random: string, fileName: string): (path: string)
    ensures |path| == |BannerFolder| + |random| + 1 + |fileName|
    ensures path[..|BannerFolder|] == BannerFolder
    ensures path[|BannerFolder|..|BannerFolder| + |random|] == random
    ensures path[|path| - |fileName| - 1..] == "-" + fileName
  {
    BannerFolder + random + "-" + fileName
  }

  /**
   * Two uploads of one file name with different random parts target different
   * paths: random parts of different lengths give paths of different lengths,
   * and random parts of one length differ at some character the paths share.
   */
  lemma UploadPathsDiffer(random1: string, random2: string, fileName: string)
    requires random1 != random2
    ensures UploadPath(random1, fileName) != UploadPath(random2, fileName)
  {
    if |random1| == |random2| {
      var k :| 0 <= k < |random1| && random1[k] != random2[k];
      assert UploadPath(random1, fileName)[|BannerFolder| + k] == random1[k];
      assert UploadPath(random2, fileName)[|BannerFolder| + k] == random2[k];
    }
  }

  /**
   * `handleInputChange(inputType, value)` as the form calls it: one constructor
   * per field, carrying a value of that field's type.
   */
  datatype FieldUpdate =
    | SetDisplayPhoto(photo: Option<string>)
    | SetName(name: string)
    | SetDescription(description: string)
    | SetOnline(online: bool)
    | SetState(state: string)
    | SetCounty(county: string)
    | SetBranchOfService(branchOfService: string)
    | SetTags(tags: seq<int>)
    | SetPassword(password: string)

  /** A field's value, tagged by its type. */
  datatype FieldValue =
    | PhotoValue(photo: Option<string>)
    | TextValue(text: string)
    | FlagValue(flag: bool)
    | TagsValue(tags: seq<int>)
    | PasswordValue(password: Option<string>)

  /** The key an update writes (`inputType`). */
  function FieldOf(u: FieldUpdate): Field
  {
    match u
    case SetDisplayPhoto(_) => DisplayPhoto
    case SetName(_) => Name
    case SetDescription(_) => Description
    case SetOnline(_) => Online
    case SetState(_) => State
    case SetCounty(_) => County
    case SetBranchOfService(_) => BranchOfService
    case SetTags(_) => Tags
    case SetPassword(_) => Password
  }

  /** The value an update writes. */
  function ValueOf(u: FieldUpdate): FieldValue
  {
    match u
    case SetDisplayPhoto(p) => PhotoValue(p)
    case SetName(s) => TextValue(s)
    case SetDescription(s) => TextValue(s)
    case SetOnline(b) => FlagValue(b)
    case SetState(s) => TextValue(s)
    case SetCounty(s) => TextValue(s)
    case SetBranchOfService(s) => TextValue(s)
    case SetTags(t) => TagsValue(t)
    case SetPassword(s) => PasswordValue(Some(s))
  }

  /** `input[f]`. */
  function Get(input: GroupInput, f: Field): FieldValue
  {
    match f
    case DisplayPhoto => PhotoValue(input.displayPhoto)
    case Name => TextValue(input.name)
    case Description => TextValue(input.description)
    case Online => FlagValue(input.online)
    case State => TextValue(input.state)
    case County => TextValue(input.county)
    case BranchOfService => TextValue(input.branchOfService)
    case Tags => TagsValue(input.tags)
    case Password => PasswordValue(input.password)
  }

  /** `{...prev, [inputType]: value}`. */
  function Apply(input: GroupInput, u: FieldUpdate): GroupInput
  {
    match u
    case SetDisplayPhoto(p) => input.(displayPhoto := p)
    case SetName(s) => input.(name := s)
    case SetDescription(s) => input.(description := s)
    case SetOnline(b) => input.(online := b)
    case SetState(s) => input.(state := s)
    case SetCounty(s) => input.(county := s)
    case SetBranchOfService(s) => input.(branchOfService := s)
    case SetTags(t) => input.(tags := t)
    case SetPassword(s) => input.(password := Some(s))
  }

  /** An update writes its own field and leaves the other eight as they were. */
  lemma ApplyIsLocal(input: GroupInput, u: FieldUpdate)
    ensures forall f :: Get(Apply(input, u), f) == if f == FieldOf(u) then ValueOf(u) else Get(input, f)
  {
  }
}
