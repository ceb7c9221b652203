/**
 * The notification list: toasts shown in insertion order, each removed by id
 * when its timer fires or when the shopper closes it.
 */
module Notifications {
  import opened Seqs

  datatype Kind = Success | Error

  datatype Notification = Notification(id: int, message: string, kind: Kind)

  /** The filter callback `n => n.id !== id`. */
  function OtherThan(id: int): Notification -> bool {
    (n: Notification) => n.id != id
  }

  /** `notifications.filter(n => n.id !== id)`: what both the timer and the close button do. */
  function Dismiss(notifications: seq<Notification>, id: int): seq<Notification> {
    Filter(notifications, OtherThan(id))
  }

  /** Dismissing removes every message with the id and only those, keeping each other one as often as before and in order. */
  lemma DismissRemovesOnlyId(notifications: seq<Notification>, id: int)
    ensures forall n :: n in Dismiss(notifications, id) <==> n in notifications && n.id != id
    ensures forall n :: multiset(Dismiss(notifications, id))[n] == if n.id != id then multiset(notifications)[n] else 0
    ensures IsSubsequence(Dismiss(notifications, id), notifications)
    ensures (forall n :: n in notifications ==> n.id != id) ==> Dismiss(notifications, id) == notifications
  {
    FilterMembers(notifications, OtherThan(id));
    FilterCounts(notifications, OtherThan(id));
    FilterIsSubsequence(notifications, OtherThan(id));
    if forall n :: n in notifications ==> n.id != id {
      FilterKeepsAll(notifications, OtherThan(id));
    }
  }

  /** A second dismissal of the same id (the timer after a manual close) changes nothing. */
  lemma DismissTwice(notifications: seq<Notification>, id: int)
    ensures Dismiss(Dismiss(notifications, id), id) == Dismiss(notifications, id)
  {
    FilterIdempotent(notifications, OtherThan(id));
  }

  /** Dismissing a freshly pushed message whose id no earlier message shares restores the list. */
  lemma PushThenDismiss(notifications: seq<Notification>, n: Notification)
    requires forall m :: m in notifications ==> m.id != n.id
    ensures Dismiss(notifications + [n], n.id) == notifications
  {
    FilterConcat(notifications, [n], OtherThan(n.id));
    FilterKeepsAll(notifications, OtherThan(n.id));
    assert [n][1..] == [];
  }

  /** Dismissing another id leaves a pushed message in place at the end. */
  lemma DismissOtherKeepsPushed(notifications: seq<Notification>, n: Notification, id: int)
    requires n.id != id
    ensures Dismiss(notifications + [n], id) == Dismiss(notifications, id) + [n]
  {
    FilterConcat(notifications, [n], OtherThan(id));
    assert [n][1..] == [];
  }
}
