/** The settings page's notification preferences: four on/off flags, one
    flipped per toggle, and the confirmation message the toggle shows. */
module Settings {

  /** The four preferences. */
  datatype Notifications = Notifications(email: bool, push: bool, taskReminders: bool, updates: bool)
  {
    function Get(k: Key): bool
    {
      match k
      case Email => email
      case Push => push
      case TaskReminders => taskReminders
      case Updates => updates
    }
  }

  /** `keyof typeof notifications`. */
  datatype Key = Email | Push | TaskReminders | Updates

  /** The key as the message spells it. */
  function KeyName(k: Key): string
  {
    match k
    case Email => "email"
    case Push => "push"
    case TaskReminders => "taskReminders"
    case Updates => "updates"
  }

  /** The preferences the page starts with. */
  function Initial(): Notifications
  {
    Notifications(true, false, true, false)
  }

  /** Email and task reminders start on; push and updates start off. */
  lemma InitialFlags()
    ensures Initial().Get(Email) && Initial().Get(TaskReminders)
    ensures !Initial().Get(Push) && !Initial().Get(Updates)
  {
  }

  /** `handleNotificationToggle`'s new record: `{ ...notifications, [key]: !notifications[key] }`. */
  function Toggle(n: Notifications, k: Key): (r: Notifications)
    ensures r.Get(k) == !n.Get(k)
    ensures forall k' :: k' != k ==> r.Get(k') == n.Get(k')
  {
    match k
    case Email => n.(email := !n.email)
    case Push => n.(push := !n.push)
    case TaskReminders => n.(taskReminders := !n.taskReminders)
    case Updates => n.(updates := !n.updates)
  }

  /** Toggling the same key twice gives back the original record. */
  lemma ToggleTwice(n: Notifications, k: Key)
    ensures Toggle(Toggle(n, k), k) == n
  {
    var r := Toggle(Toggle(n, k), k);
    assert forall k' :: r.Get(k') == n.Get(k');
    assert r.Get(Email) == n.Get(Email) && r.Get(Push) == n.Get(Push);
    assert r.Get(TaskReminders) == n.Get(TaskReminders) && r.Get(Updates) == n.Get(Updates);
  }

  /** The confirmation message, worded from the flag's value before the
      toggle: "disabled" when it was on, "enabled" when it was off. */
  function ToggleMessage(n: Notifications, k: Key): (m: string)
  {
    KeyName(k) + " notifications " + (if n.Get(k) then "disabled" else "enabled")
  }

  /** The message names the key and says "enabled" exactly when the flag is
      on after the toggle. */
  lemma ToggleMessageAgrees(n: Notifications, k: Key)
    ensures var m := ToggleMessage(n, k); var prefix := KeyName(k) + " notifications ";
      && m[..|prefix|] == prefix
      && (m[|prefix|..] == "enabled" <==> Toggle(n, k).Get(k))
      && (m[|prefix|..] == "disabled" <==> !Toggle(n, k).Get(k))
  {
    var prefix := KeyName(k) + " notifications ";
    var m := ToggleMessage(n, k);
    assert m[..|prefix|] == prefix;
    assert m[|prefix|..] == if n.Get(k) then "disabled" else "enabled";
    assert "enabled" != "disabled";
  }
}
