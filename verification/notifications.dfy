/** The shared notification list and the one operation that changes it. */
module Notifications {

  /** A notification; `text` is its label; the id comes from the clock in the client, so it is a parameter here. */
  datatype Notification = Notification(id: int, text: string, isFresh: bool)

  /** The list every session starts with. */
  const Initial: seq<Notification> := [
    Notification(1, "Payment posted for Campus Bookstore", true),
    Notification(2, "You earned 120 campus reward points", true),
    Notification(3, "Security reminder: update recovery question", false)
  ]

  /** The number of notifications still marked fresh. */
  function FreshCount(list: seq<Notification>): (n: nat)
    ensures n <= |list|
  {
    if |list| == 0 then 0
    else (if list[0].isFresh then 1 else 0) + FreshCount(list[1..])
  }

  /**
    Adds a fresh notification with the given text in front of the list;
    the earlier notifications follow unchanged.
  */
  function Add(list: seq<Notification>, id: int, text: string): (r: seq<Notification>)
    ensures |r| == |list| + 1
    ensures r[0].text == text && r[0].isFresh && r[0].id == id
    ensures r[1..] == list
    ensures FreshCount(r) == FreshCount(list) + 1
  {
    var r := [Notification(id, text, true)] + list;
    assert r[1..] == list;
    r
  }

  /** The initial list holds three notifications, two of them fresh. */
  lemma InitialCounts()
    ensures |Initial| == 3 && FreshCount(Initial) == 2
  {
    assert Initial[1..][1..][1..] == [];
  }

  /** The fresh count after a run of adds grows by the number of adds. */
  lemma {:induction false} AddsCountFresh(list: seq<Notification>, labels: seq<string>, ids: seq<int>)
    requires |ids| == |labels|
    ensures FreshCount(AddAll(list, ids, labels)) == FreshCount(list) + |labels|
    ensures |AddAll(list, ids, labels)| == |list| + |labels|
    decreases |labels|
  {
    if |labels| > 0 {
      AddsCountFresh(list, labels[..|labels| - 1], ids[..|ids| - 1]);
    }
  }

  /** Adds the labels one after another, each with its own id. */
  function AddAll(list: seq<Notification>, ids: seq<int>, labels: seq<string>): seq<Notification>
    requires |ids| == |labels|
    decreases |labels|
  {
    if |labels| == 0 then list
    else Add(AddAll(list, ids[..|ids| - 1], labels[..|labels| - 1]), ids[|ids| - 1], labels[|labels| - 1])
  }
}
