/** The account settings page (src/pages/Settings.tsx): the guarded name and
    password updates and the flags they reset. */
module SettingsPage {
  import opened Common
  import opened Zod
  import opened Backend
  import SignupPage

  const MinPassword := 8

  /** Line 19: the name update proceeds only with a name that is not blank. */
  predicate NameAccepted(name: string) {
    Trim(name) != ""
  }

  /** Line 32: the password update proceeds only with at least eight UTF-16
      code units; the password is not trimmed. */
  predicate PasswordAccepted(password: string) {
    JsLength(password) >= MinPassword
  }

  /** The name sent is trimmed, and sending it again would send the same. */
  lemma {:induction false} SentNameIsTrimmed(name: string)
    requires NameAccepted(name)
    ensures NameAccepted(Trim(name)) && Trim(Trim(name)) == Trim(name)
    ensures !IsJsWhitespace(Trim(name)[0]) && !IsJsWhitespace(Trim(name)[|Trim(name)| - 1])
  {
    TrimIdempotent(name);
  }

  /** The boundary sits at eight: on plain text eight characters are accepted
      and seven are not, while one character outside the Basic Multilingual
      Plane counts twice. */
  lemma {:induction false} PasswordBoundary(password: string)
    requires forall i :: 0 <= i < |password| ==> password[i] as int <= 0xFFFF
    ensures |password| == 8 ==> PasswordAccepted(password)
    ensures |password| == 7 ==> !PasswordAccepted(password)
  {
    JsLengthOfBmp(password);
  }

  /** Four astral characters, such as emoji, already reach the minimum. */
  lemma {:induction false} AstralPasswordBoundary(password: string)
    requires |password| == 4 && forall i :: 0 <= i < 4 ==> password[i] as int > 0xFFFF
    ensures PasswordAccepted(password)
  {
    var p1, p2, p3 := password[..1], password[..2], password[..3];
    assert p1[..0] == [] && p2[..1] == p1 && p3[..2] == p2 && password[..3] == p3;
    assert JsLength(p1) == 2;
    assert JsLength(p2) == 4;
    assert JsLength(p3) == 6;
  }

  /** The settings page accepts exactly those passwords for which the sign-up
      schema reports no password issue. */
  lemma {:induction false} PasswordIssueIffRejected(form: SignupPage.SignupForm, isEmail: string -> bool)
    ensures PasswordAccepted(form.password) <==> SignupPage.IssuesOf(form, SignupPage.Password, isEmail) == []
  {
    SignupPage.IssuesOfShape(form, SignupPage.Password, isEmail);
  }

  /** The name guard is weaker than the sign-up schema: a name of more than a
      hundred characters, which sign-up rejects, is sent to the profile
      update. */
  lemma {:induction false} LongNameIsAccepted(name: string, isEmail: string -> bool)
    requires |name| == 101 && forall i :: 0 <= i < |name| ==> name[i] == 'a'
    ensures NameAccepted(name)
    ensures !SignupPage.FieldOk(SignupPage.SignupForm(name, "", "", true), SignupPage.FullName, isEmail)
  {
    assert !IsJsWhitespace(name[0]);
    assert !AllWhitespace(name);
    assert TrimStart(name) == name;
    assert TrimEnd(name) == name;
    assert forall i :: 0 <= i < |name| ==> name[i] as int <= 0xFFFF;
    JsLengthOfBmp(name);
  }

  class SettingsView {
    var fullName: string
    var newPassword: string
    var savingName: bool
    var savingPass: bool

    /** The name field starts from the profile's name, or empty. */
    constructor (profileName: Option<string>)
      ensures fullName == profileName.GetOr("") && newPassword == "" && !savingName && !savingPass
    {
      fullName, newPassword := profileName.GetOr(""), "";
      savingName, savingPass := false, false;
    }

    /** `handleNameUpdate`: a blank name sends nothing; otherwise the trimmed
        name is sent and `savingName` is false again whatever the outcome.
        Returns whether the profile was updated. */
    method HandleNameUpdate(identity: Identity, fails: bool) returns (saved: bool)
      modifies this, identity
      ensures fullName == old(fullName) && newPassword == old(newPassword) && savingPass == old(savingPass)
      ensures identity.password == old(identity.password) && identity.registrations == old(identity.registrations)
      ensures saved <==> NameAccepted(fullName) && !fails
      ensures !NameAccepted(fullName) ==>
        savingName == old(savingName) && identity.requests == old(identity.requests)
        && identity.profileName == old(identity.profileName)
      ensures NameAccepted(fullName) ==>
        && !savingName
        && identity.requests == old(identity.requests) + [ProfileUpdate(Trim(fullName))]
        && identity.profileName == (if fails then old(identity.profileName) else Trim(fullName))
    {
      if Trim(fullName) == "" {
        return false;
      }
      savingName := true;
      saved := identity.UpdateProfile(Trim(fullName), fails);
      savingName := false;
    }

    /** `handlePasswordUpdate`: a short password sends nothing; otherwise it is
        sent as typed, `savingPass` is false again whatever the outcome, and the
        field is cleared only on success. Returns whether it was changed. */
    method HandlePasswordUpdate(identity: Identity, fails: bool) returns (saved: bool)
      modifies this, identity
      ensures fullName == old(fullName) && savingName == old(savingName)
      ensures identity.profileName == old(identity.profileName) && identity.registrations == old(identity.registrations)
      ensures saved <==> PasswordAccepted(old(newPassword)) && !fails
      ensures !PasswordAccepted(old(newPassword)) ==>
        && savingPass == old(savingPass) && newPassword == old(newPassword)
        && identity.requests == old(identity.requests) && identity.password == old(identity.password)
      ensures PasswordAccepted(old(newPassword)) ==>
        && !savingPass
        && newPassword == (if saved then "" else old(newPassword))
        && identity.requests == old(identity.requests) + [PasswordUpdate(old(newPassword))]
        && identity.password == (if fails then old(identity.password) else old(newPassword))
    {
      if JsLength(newPassword) < MinPassword {
        return false;
      }
      savingPass := true;
      saved := identity.UpdatePassword(newPassword, fails);
      savingPass := false;
      if saved {
        newPassword := "";
      }
    }
  }
}
