/**
 * The profile form (src/app/profile/components/ProfileForm.tsx) as a state
 * machine: the form's current values, with the `interests` field array as a
 * list the field-array operations change in place, and the log of update
 * payloads `trigger` has been given.
 */
module Profile {
  import opened Wrappers
  import opened Sorting
  import opened InterestDedup
  import opened ProfileSchema

  class ProfileForm {
    var name: string
    var email: string
    var branch: Option<string>
    /** The `interests` field array. */
    var fields: seq<InterestEntry>
    /** Every payload handed to the update request, oldest first. */
    var updates: seq<ProfileValues>

    /** The values the form would submit now. */
    function Values(): ProfileValues
      reads this
    {
      ProfileValues(name, email, branch, Some(fields))
    }

    /** The form starts from `defaultValues`; nothing has been sent. */
    constructor (user: UserData, le: (string, string) -> bool)
      ensures Values() == DefaultValues(user, le)
      ensures updates == []
    {
      var defaults := DefaultValues(user, le);
      name := defaults.name;
      email := defaults.email;
      branch := defaults.branch;
      fields := defaults.interests.value;
      updates := [];
    }

    /** The name input's change. */
    method EditName(newName: string)
      modifies this`name
      ensures name == newName
    {
      name := newName;
    }

    /** The branch selector's change. */
    method EditBranch(newBranch: string)
      modifies this`branch
      ensures branch == Some(newBranch)
    {
      branch := Some(newBranch);
    }

    /** "Add Interest": an unfilled slot `{ id: 0, value: "" }` goes at the end; nothing is deduplicated. */
    method AddInterest()
      modifies this`fields
      ensures fields == old(fields) + [InterestEntry(0, "")]
    {
      fields := fields + [InterestEntry(0, "")];
    }

    /** The cross button of entry `index`: that entry alone is removed. */
    method RemoveInterest(index: nat)
      requires index < |fields|
      modifies this`fields
      ensures fields == old(fields)[..index] + old(fields)[index + 1..]
    {
      fields := fields[..index] + fields[index + 1..];
    }

    /** Picking `interest` for entry `index`: its value, then its id, are set; nothing else changes. */
    method SelectInterest(index: nat, interest: AvailableInterest)
      requires index < |fields|
      modifies this`fields
      ensures fields == old(fields)[index := InterestEntry(interest.id, interest.value)]
    {
      fields := fields[index := fields[index].(value := interest.value)];
      fields := fields[index := fields[index].(id := interest.id)];
    }

    /** `removeDuplicatedInterests`: the repeats the loop collects are removed together. */
    method RemoveDuplicatedInterests()
      modifies this`fields
      ensures fields == Deduplicated(old(fields))
    {
      var indexesToRemove := CollectRepeats(fields);
      var marked := set k | k in indexesToRemove;
      WithoutAgrees(fields, marked, RepeatIndexes(fields));
      fields := Without(fields, marked);
    }

    /**
     * `onSubmit(data)`: the field array is deduplicated, then the update is
     * triggered with `data` as it was passed in.
     */
    method OnSubmit(data: ProfileValues)
      modifies this`fields, this`updates
      ensures fields == Deduplicated(old(fields))
      ensures updates == old(updates) + [data]
    {
      RemoveDuplicatedInterests();
      updates := updates + [data];
    }

    /**
     * The form's submit: the schema runs first; only values it accepts reach
     * `onSubmit`, which then deduplicates the field array and sends the values
     * exactly as they were validated. Rejected values change nothing.
     */
    method Submit(isEmail: string -> bool)
      modifies this`fields, this`updates
      ensures ValidateProfile(old(Values()), isEmail) == [] ==>
        fields == Deduplicated(old(fields)) && updates == old(updates) + [old(Values())]
      ensures ValidateProfile(old(Values()), isEmail) != [] ==>
        fields == old(fields) && updates == old(updates)
    {
      var data := Values();
      if ValidateProfile(data, isEmail) == [] {
        OnSubmit(data);
      }
    }
  }
}
