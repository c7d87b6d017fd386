/**
 * The two behaviour-carrying helpers of the administration site: which profile
 * inline the user page shows, and the shortened message in the notification list.
 */
module Admin {
  import opened Wrappers
  import opened Models

  /** The profile inlines the user page can show. */
  datatype ProfileInline = PatientProfileInline | DoctorProfileInline

  /**
   * The inlines for the user being edited: none while a new user is added
   * (`obj` absent), the patient profile for a patient, the doctor profile for a
   * doctor, and none for any other role.
   */
  function GetInlines(obj: Option<User>): (r: seq<ProfileInline>)
    ensures |r| <= 1
    ensures r == [PatientProfileInline] <==> obj.Some? && obj.value.role == PatientRole
    ensures r == [DoctorProfileInline] <==> obj.Some? && obj.value.role == DoctorRole
    ensures r == [] <==> obj.None? || obj.value.role !in {PatientRole, DoctorRole}
  {
    if obj.Some? then
      if obj.value.role == PatientRole then [PatientProfileInline]
      else if obj.value.role == DoctorRole then [DoctorProfileInline]
      else []
    else []
  }

  /** The two profile inlines are never shown together. */
  lemma InlinesExclusive(obj: Option<User>)
    ensures !(PatientProfileInline in GetInlines(obj) && DoctorProfileInline in GetInlines(obj))
  {
  }

  /** An administrator gets no profile inline. */
  lemma AdminHasNoInline(email: string)
    ensures GetInlines(Some(User(email, AdminRole))) == []
  {
  }

  /** The longest message shown unshortened. */
  const SummaryLength: nat := 75

  /** A notification for `user`; only its text carries behaviour here. */
  datatype Notification = Notification(user: User, message: string)

  function Min(a: nat, b: nat): nat {
    if a <= b then a else b
  }

  /**
   * The message as listed: unchanged when it has at most 75 characters,
   * otherwise its first 75 characters followed by "...".
   */
  function MessageSummary(n: Notification): (r: string)
    ensures |n.message| <= SummaryLength ==> r == n.message
    ensures |n.message| > SummaryLength ==> r == n.message[..SummaryLength] + "..."
    ensures |r| <= SummaryLength + 3
    ensures |r| == SummaryLength + 3 <==> |n.message| > SummaryLength
    ensures r[..Min(|n.message|, SummaryLength)] == n.message[..Min(|n.message|, SummaryLength)]
  {
    if |n.message| > SummaryLength then n.message[..SummaryLength] + "..." else n.message
  }
}
