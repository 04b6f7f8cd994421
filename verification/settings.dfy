/** The settings page (src/pages/settings.jsx): notification switches, the change-password
    form and the labels printed for notification keys. The alert and the console log are
    effects outside the model; the alert text is returned instead. */
module Settings {
  import opened Wrappers
  import opened Text
  import Numeric

  // ---------------------------------------------------------------------------
  // Notification switches

  /** The switches of one category, by setting name. */
  type Switches = map<string, bool>

  /** `notificationSettings`: categories of switches. */
  type Notifications = map<string, Switches>

  const DefaultNotifications: Notifications := map[
    "emailNotifications" := map[
      "taskAssigned" := true, "taskCompleted" := true, "taskOverdue" := true,
      "weeklyReport" := false, "teamUpdates" := true],
    "reminderNotifications" := map[
      "upcomingDeadlines" := true, "dailyDigest" := true, "taskReminders" := true,
      "mentionedInComments" := true]]

  /** `prev[category][setting]` read as a boolean: a missing setting is `undefined`, falsy. */
  predicate IsOn(s: Notifications, category: string, setting: string)
    requires category in s
  {
    setting in s[category] && s[category][setting]
  }

  /** `handleNotificationToggle`: negates one switch. Reading a setting of a missing
      category throws a TypeError; a missing setting is created switched on. */
  function Toggle(s: Notifications, category: string, setting: string): (r: Eval<Notifications>)
    ensures r.Threw? <==> category !in s
    ensures r.Done? ==> r.value.Keys == s.Keys && r.value[category].Keys == s[category].Keys + {setting}
    ensures r.Done? ==> r.value[category][setting] == !IsOn(s, category, setting)
    ensures r.Done? ==> forall c, k :: c in s && k in s[c] && (c != category || k != setting) ==>
      c in r.value && k in r.value[c] && r.value[c][k] == s[c][k]
  {
    if category !in s then Threw
    else Done(s[category := s[category][setting := !IsOn(s, category, setting)]])
  }

  /** Flipping an existing switch twice gives the settings back. */
  lemma ToggleTwice(s: Notifications, category: string, setting: string)
    requires category in s && setting in s[category]
    ensures Toggle(s, category, setting).Done?
    ensures Toggle(Toggle(s, category, setting).value, category, setting) == Done(s)
  {
    var once := Toggle(s, category, setting).value;
    assert once[category][setting := !IsOn(once, category, setting)] == s[category];
    assert once[category := s[category]] == s;
  }

  /** A setting that did not exist comes back switched off, not absent. */
  lemma ToggleTwiceMissing(s: Notifications, category: string, setting: string)
    requires category in s && setting !in s[category]
    ensures Toggle(s, category, setting).Done?
    ensures Toggle(Toggle(s, category, setting).value, category, setting)
         == Done(s[category := s[category][setting := false]])
  {
    var once := Toggle(s, category, setting).value;
    assert IsOn(once, category, setting);
    assert once[category][setting := false] == s[category][setting := false];
    assert once[category := s[category][setting := false]] == s[category := s[category][setting := false]];
  }

  /** Every switch the page shows can be flipped. */
  lemma DefaultSwitchesToggle(category: string, setting: string)
    requires category in DefaultNotifications && setting in DefaultNotifications[category]
    ensures Toggle(DefaultNotifications, category, setting).Done?
    ensures Toggle(DefaultNotifications, category, setting).value[category][setting]
         == !DefaultNotifications[category][setting]
  {
  }

  // ---------------------------------------------------------------------------
  // Change password

  datatype PasswordForm = PasswordForm(currentPassword: string, newPassword: string, confirmPassword: string)

  const EmptyPasswordForm: PasswordForm := PasswordForm("", "", "")

  const MismatchText: string := "New passwords do not match!"

  /** The form after a submit, and the alert raised, if any. */
  datatype Submitted = Submitted(form: PasswordForm, alert: Option<string>)

  /** `handlePasswordSubmit`: a mismatch alerts and keeps the form; anything else,
      whatever its length, clears the form. */
  function SubmitPassword(f: PasswordForm): (r: Submitted)
    ensures r.alert.Some? <==> f.newPassword != f.confirmPassword
    ensures r.alert.Some? ==> r.form == f && r.alert.value == MismatchText
    ensures r.alert.None? ==> r.form == EmptyPasswordForm
  {
    if f.newPassword != f.confirmPassword then Submitted(f, Some(MismatchText))
    else Submitted(EmptyPasswordForm, None)
  }

  /** The Cancel button: clears all three fields. */
  function CancelPassword(f: PasswordForm): (r: PasswordForm)
    ensures r.currentPassword == "" && r.newPassword == "" && r.confirmPassword == ""
  {
    EmptyPasswordForm
  }

  /** Submitting again changes nothing: a rejected form is rejected again, a cleared one
      stays cleared. */
  lemma SubmitIdempotent(f: PasswordForm)
    ensures SubmitPassword(SubmitPassword(f).form) == SubmitPassword(f)
  {
  }

  /** A submit that passes leaves the same form as Cancel. */
  lemma SubmitLikeCancel(f: PasswordForm)
    requires f.newPassword == f.confirmPassword
    ensures SubmitPassword(f).form == CancelPassword(f)
  {
  }

  // ---------------------------------------------------------------------------
  // Labels

  /** `key.replace(/([A-Z])/g, " $1")`: a space before every ASCII capital. */
  function SpaceBeforeCapitals(s: string): (r: string)
    ensures |r| == |s| + Numeric.Count(s, IsAsciiUpper)
    ensures forall i :: 0 <= i < |r| && IsAsciiUpper(r[i]) ==> 0 < i && r[i - 1] == ' '
  {
    if |s| == 0 then ""
    else
      var c := s[|s| - 1];
      SpaceBeforeCapitals(s[..|s| - 1]) + (if IsAsciiUpper(c) then [' ', c] else [c])
  }

  /** The string with its spaces deleted. */
  function RemoveSpaces(s: string): (r: string)
    ensures forall c :: c in r <==> c in s && c != ' '
  {
    if |s| == 0 then ""
    else
      var c := s[|s| - 1];
      assert forall x :: x in s <==> x in s[..|s| - 1] || x == c;
      RemoveSpaces(s[..|s| - 1]) + (if c == ' ' then "" else [c])
  }

  lemma {:induction false} RemoveSpacesAppend(s: string, t: string)
    ensures RemoveSpaces(s + t) == RemoveSpaces(s) + RemoveSpaces(t)
    decreases |t|
  {
    if |t| == 0 {
      assert s + t == s;
    } else {
      assert (s + t)[..|s + t| - 1] == s + t[..|t| - 1];
      RemoveSpacesAppend(s, t[..|t| - 1]);
    }
  }

  /** Spacing works character by character, so it distributes over concatenation. */
  lemma {:induction false} SpaceBeforeCapitalsAppend(s: string, t: string)
    ensures SpaceBeforeCapitals(s + t) == SpaceBeforeCapitals(s) + SpaceBeforeCapitals(t)
    decreases |t|
  {
    if |t| == 0 {
      assert s + t == s;
    } else {
      assert (s + t)[..|s + t| - 1] == s + t[..|t| - 1];
      SpaceBeforeCapitalsAppend(s, t[..|t| - 1]);
    }
  }

  /** The inserted spaces are the only change: without spaces, the label is the key. */
  lemma {:induction false} SpacesOnlyInserted(s: string)
    ensures RemoveSpaces(SpaceBeforeCapitals(s)) == RemoveSpaces(s)
  {
    if |s| > 0 {
      var init, c := s[..|s| - 1], s[|s| - 1];
      var block := if IsAsciiUpper(c) then [' ', c] else [c];
      SpaceBeforeCapitalsSnoc(s);
      RemoveSpacesAppend(SpaceBeforeCapitals(init), block);
      SpacedCharacter(c);
      SpacesOnlyInserted(init);
      RemoveSpacesAppend(init, [c]);
      assert init + [c] == s;
    }
  }

  /** One step of the spacing: the last character becomes its block. */
  lemma SpaceBeforeCapitalsSnoc(s: string)
    requires |s| > 0
    ensures SpaceBeforeCapitals(s) ==
      SpaceBeforeCapitals(s[..|s| - 1]) + (if IsAsciiUpper(s[|s| - 1]) then [' ', s[|s| - 1]] else [s[|s| - 1]])
  {
  }

  /** The block one character turns into loses its inserted space again. */
  lemma SpacedCharacter(c: char)
    ensures RemoveSpaces(if IsAsciiUpper(c) then [' ', c] else [c]) == RemoveSpaces([c])
  {
    assert [c][..0] == [];
    if IsAsciiUpper(c) {
      assert [' ', c][..1] == [' '];
      assert [' '][..0] == [];
    }
  }

  /** `.replace(/^./, (str) => str.toUpperCase())` on the ASCII letters. */
  function CapitalizeFirst(s: string): (r: string)
    ensures |r| == |s| && (|s| > 0 ==> r[1..] == s[1..])
    ensures |s| > 0 ==> r[0] == UpperChar(s[0])
  {
    if |s| == 0 then s else [UpperChar(s[0])] + s[1..]
  }

  /** The label printed for a notification key. */
  function Label(key: string): (r: string)
    ensures |r| == |key| + Numeric.Count(key, IsAsciiUpper)
    ensures forall i :: 0 < i < |r| && IsAsciiUpper(r[i]) ==> r[i - 1] == ' '
  {
    CapitalizeFirst(SpaceBeforeCapitals(key))
  }

  /** A key starting with a lower-case letter gets a capital first letter. */
  lemma LabelStartsCapitalized(key: string)
    requires |key| > 0 && IsAsciiLower(key[0])
    ensures IsAsciiUpper(Label(key)[0]) && Label(key)[0] == UpperChar(key[0])
  {
    assert key[..1] == [key[0]];
    assert [key[0]][..0] == [];
    assert SpaceBeforeCapitals(key[..1]) == [key[0]];
    SpaceBeforeCapitalsPrefix(key, 1);
  }

  /** Spacing a prefix spaces the start of the whole. */
  lemma {:induction false} SpaceBeforeCapitalsPrefix(s: string, n: nat)
    requires n <= |s|
    ensures SpaceBeforeCapitals(s[..n]) <= SpaceBeforeCapitals(s)
    decreases |s| - n
  {
    if n < |s| {
      SpaceBeforeCapitalsPrefix(s, n + 1);
      assert s[..n + 1][..n] == s[..n];
    } else {
      assert s[..n] == s;
    }
  }

  /** A key starting with a capital gets a leading space. */
  lemma LabelLeadingCapital(key: string)
    requires |key| > 0 && IsAsciiUpper(key[0])
    ensures Label(key)[0] == ' '
  {
    assert key[..1] == [key[0]];
    assert [key[0]][..0] == [];
    assert SpaceBeforeCapitals(key[..1]) == [' ', key[0]];
    SpaceBeforeCapitalsPrefix(key, 1);
  }
}
