/**
 * The pure half of the profile form (src/app/profile/components/ProfileForm.tsx):
 * the profile schema, the sorted list of selectable interests, and the form's
 * default values built from the signed-in user.
 */
module ProfileSchema {
  import opened Wrappers
  import opened Sorting
  import opened InterestDedup

  /** `ProfileFormValues`; `interests` may be absent, `branch` may be `undefined`. */
  datatype ProfileValues = ProfileValues(
    name: string,
    email: string,
    branch: Option<string>,
    interests: Option<seq<InterestEntry>>)

  /** Where a profile issue points: a top-level field, or the value of one interest entry. */
  datatype ProfilePath = NamePath | EmailPath | BranchPath | InterestValuePath(index: int)

  datatype ProfileIssue = ProfileIssue(path: ProfilePath, message: string)

  const NameTooShort := "Name must be at least 2 characters."
  const NameTooLong := "Name must not be longer than 40 characters."
  const InvalidEmail := "Invalid email"
  const BranchMissing := "Please select a branch of service."
  const SelectAnInterest := "Please select an interest"

  /** The `min(2)` and `max(40)` checks on the name. */
  function NameIssues(name: string): seq<ProfileIssue>
  {
    if |name| < 2 then [ProfileIssue(NamePath, NameTooShort)]
    else if |name| > 40 then [ProfileIssue(NamePath, NameTooLong)]
    else []
  }

  /** The `min(1)` check on each entry's value, in list order. */
  function InterestIssues(entries: seq<InterestEntry>): (issues: seq<ProfileIssue>)
    ensures forall k :: 0 <= k < |issues| ==>
      && issues[k].path.InterestValuePath?
      && 0 <= issues[k].path.index < |entries|
      && entries[issues[k].path.index].value == ""
      && issues[k].message == SelectAnInterest
    ensures forall i :: 0 <= i < |entries| && entries[i].value == "" ==>
      ProfileIssue(InterestValuePath(i), SelectAnInterest) in issues
  {
    if entries == [] then []
    else
      var n := |entries| - 1;
      var front := InterestIssues(entries[..n]);
      assert forall i :: 0 <= i < n ==> entries[..n][i] == entries[i];
      front + (if entries[n].value == "" then [ProfileIssue(InterestValuePath(n), SelectAnInterest)] else [])
  }

  /**
   * The profile schema: it passes exactly when the name has 2 to 40
   * characters, the email is an email address, a branch is given, and every
   * interest entry, if there are any, has a non-empty value. `isEmail` stands
   * for the schema library's email check.
   */
  function ValidateProfile(values: ProfileValues, isEmail: string -> bool): (issues: seq<ProfileIssue>)
    ensures issues == [] <==>
      && 2 <= |values.name| <= 40
      && isEmail(values.email)
      && values.branch.Some?
      && (values.interests.Some? ==> forall i :: 0 <= i < |values.interests.value| ==> values.interests.value[i].value != "")
    ensures values.interests.Some? ==> forall i :: 0 <= i < |values.interests.value| && values.interests.value[i].value == "" ==>
      ProfileIssue(InterestValuePath(i), SelectAnInterest) in issues
  {
    var interestIssues := match values.interests
      case None => []
      case Some(entries) => InterestIssues(entries);
    assert interestIssues != [] ==> values.interests.value[interestIssues[0].path.index].value == "";
    NameIssues(values.name)
      + (if isEmail(values.email) then [] else [ProfileIssue(EmailPath, InvalidEmail)])
      + (if values.branch.Some? then [] else [ProfileIssue(BranchPath, BranchMissing)])
      + interestIssues
  }

  /** A freshly added, unfilled slot fails with "Please select an interest" at its index. */
  lemma AppendedSlotFails(values: ProfileValues, isEmail: string -> bool, before: seq<InterestEntry>)
    requires values.interests == Some(before + [InterestEntry(0, "")])
    ensures ProfileIssue(InterestValuePath(|before|), SelectAnInterest) in ValidateProfile(values, isEmail)
    ensures ValidateProfile(values, isEmail) != []
  {
    assert values.interests.value[|before|].value == "";
  }

  /** An interest of the reference data or of the user: `{ id, name }`. */
  datatype Interest = Interest(id: int, name: string)

  /** The signed-in user as the form receives it; name, email and branch may be missing. */
  datatype UserData = UserData(
    name: Option<string>,
    email: Option<string>,
    branch: Option<string>,
    interests: seq<Interest>)

  /** An option of the interest picker: `{ id, value: name, label: name }`. */
  datatype AvailableInterest = AvailableInterest(id: int, value: string, text: string)

  /** `availableInterests`: every interest as an option, sorted by label. */
  function AvailableInterests(interests: seq<Interest>, le: (string, string) -> bool): seq<AvailableInterest>
  {
    var options := seq(|interests|, k requires 0 <= k < |interests| =>
      AvailableInterest(interests[k].id, interests[k].name, interests[k].name));
    SortBy(options, (o: AvailableInterest) => o.text, le)
  }

  /** The picker offers each interest once per occurrence, named by itself, in label order. */
  lemma AvailableInterestsSorted(interests: seq<Interest>, le: (string, string) -> bool)
    requires TotalPreorder(le)
    ensures var options := AvailableInterests(interests, le);
      && SortedBy(options, (o: AvailableInterest) => o.text, le)
      && multiset(options) == multiset(seq(|interests|, k requires 0 <= k < |interests| =>
           AvailableInterest(interests[k].id, interests[k].name, interests[k].name)))
      && forall k :: 0 <= k < |options| ==> options[k].value == options[k].text
  {
    var raw := seq(|interests|, k requires 0 <= k < |interests| =>
      AvailableInterest(interests[k].id, interests[k].name, interests[k].name));
    var options := AvailableInterests(interests, le);
    SortBySorted(raw, (o: AvailableInterest) => o.text, le);
    forall k | 0 <= k < |options| ensures options[k].value == options[k].text {
      assert options[k] in multiset(raw);
      var j :| 0 <= j < |raw| && raw[j] == options[k];
    }
  }

  /** The user's interests as form entries `{ id, value: name }`. */
  function ToEntries(interests: seq<Interest>): seq<InterestEntry>
  {
    seq(|interests|, k requires 0 <= k < |interests| => InterestEntry(interests[k].id, interests[k].name))
  }

  /** `defaultValues`: name and email default to "", the user's interests sorted by name. */
  function DefaultValues(user: UserData, le: (string, string) -> bool): ProfileValues
  {
    ProfileValues(
      user.name.GetOr(""),
      user.email.GetOr(""),
      user.branch,
      Some(ToEntries(SortBy(user.interests, (i: Interest) => i.name, le))))
  }

  /**
   * The default interest list holds the user's interests, each once per
   * occurrence, as `{ id, value: name }` entries in name order.
   */
  lemma DefaultInterestsSorted(user: UserData, le: (string, string) -> bool)
    requires TotalPreorder(le)
    ensures DefaultValues(user, le).interests.Some?
    ensures var entries := DefaultValues(user, le).interests.value;
      var sorted := SortBy(user.interests, (i: Interest) => i.name, le);
      && multiset(sorted) == multiset(user.interests)
      && |entries| == |user.interests|
      && (forall k :: 0 <= k < |entries| ==> entries[k] == InterestEntry(sorted[k].id, sorted[k].name))
      && (forall i, j :: 0 <= i < j < |entries| ==> le(entries[i].value, entries[j].value))
  {
    var sorted := SortBy(user.interests, (i: Interest) => i.name, le);
    SortBySorted(user.interests, (i: Interest) => i.name, le);
    assert |sorted| == |multiset(sorted)| == |user.interests|;
  }
}
