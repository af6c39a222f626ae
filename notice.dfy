/**
 * The `Notice` record shown by the notice presenter: a small in-app
 * notification, its priority, and the hand-written equality the presenter
 * uses to de-duplicate notices.
 */
module Notices {
  import opened Wrappers

  datatype Priority = Default | Immediate

  /** UIKit's taptic feedback kinds. */
  datatype FeedbackType = FeedbackSuccess | FeedbackWarning | FeedbackError

  /**
   * What is needed to show a notice as a system notification. The
   * `userInfo` dictionary (of type `[String: Any]`) is not part of this model.
   */
  datatype NotificationInfo = NotificationInfo(
    identifier: string,
    categoryIdentifier: Option<string>,
    title: Option<string>,
    body: Option<string>)

  /**
   * Stands for the action closure. Swift closures cannot be compared; the
   * model gives each one an identity only so that two notices can differ
   * in their handlers.
   */
  datatype ActionHandler = ActionHandler(id: nat)

  datatype Notice = Notice(
    title: string,
    subtitle: Option<string>,
    message: Option<string>,
    feedbackType: Option<FeedbackType>,
    notificationInfo: Option<NotificationInfo>,
    actionTitle: Option<string>,
    priority: Priority,
    actionHandler: Option<ActionHandler>)

  /** The designated initializer, with its default arguments. */
  function NewNotice(
    title: string,
    subtitle: Option<string> := None,
    message: Option<string> := None,
    feedbackType: Option<FeedbackType> := None,
    notificationInfo: Option<NotificationInfo> := None,
    actionTitle: Option<string> := None,
    priority: Priority := Default,
    actionHandler: Option<ActionHandler> := None): Notice
  {
    Notice(title, subtitle, message, feedbackType, notificationInfo, actionTitle, priority, actionHandler)
  }

  /** `notice.notificationInfo?.identifier` */
  function InfoIdentifier(info: Option<NotificationInfo>): Option<string> {
    if info.Some? then Some(info.value.identifier) else None
  }

  /** The custom `==` of `Notice`, with strings compared by code points (no canonical equivalence). */
  predicate Same(a: Notice, b: Notice) {
    && a.title == b.title
    && a.subtitle == b.subtitle
    && a.message == b.message
    && a.feedbackType == b.feedbackType
    && InfoIdentifier(a.notificationInfo) == InfoIdentifier(b.notificationInfo)
    && a.actionTitle == b.actionTitle
    && a.priority == b.priority
  }

  /** The parts of a notice that its equality looks at. */
  datatype NoticeKey = NoticeKey(
    title: string,
    subtitle: Option<string>,
    message: Option<string>,
    feedbackType: Option<FeedbackType>,
    infoIdentifier: Option<string>,
    actionTitle: Option<string>,
    priority: Priority)

  function KeyOf(n: Notice): NoticeKey {
    NoticeKey(n.title, n.subtitle, n.message, n.feedbackType,
              InfoIdentifier(n.notificationInfo), n.actionTitle, n.priority)
  }

  // ---------------------------------------------------------------------
  // Properties of the equality

  /** Two notices are equal exactly when their compared parts agree. */
  lemma SameIffKeysAgree(a: Notice, b: Notice)
    ensures Same(a, b) <==> KeyOf(a) == KeyOf(b)
  {
  }

  /** `==` is an equivalence relation. */
  lemma SameIsEquivalence(a: Notice, b: Notice, c: Notice)
    ensures Same(a, a)
    ensures Same(a, b) ==> Same(b, a)
    ensures Same(a, b) && Same(b, c) ==> Same(a, c)
  {
  }

  /** The action handler never takes part in equality. */
  lemma SameIgnoresActionHandler(n: Notice, h: Option<ActionHandler>)
    ensures Same(n, n.(actionHandler := h))
  {
  }

  /**
   * The notification info is compared by identifier only: replacing it
   * keeps the notice equal exactly when the identifier (or its absence)
   * is kept. Two notices without notification info agree on it.
   */
  lemma SameComparesInfoByIdentifier(n: Notice, info: Option<NotificationInfo>)
    ensures Same(n, n.(notificationInfo := info)) <==> InfoIdentifier(n.notificationInfo) == InfoIdentifier(info)
    ensures n.notificationInfo.None? && info.None? ==> Same(n, n.(notificationInfo := info))
  {
  }

  /** The designated initializer leaves every optional field nil and the priority `.default`. */
  lemma NewNoticeDefaults(title: string)
    ensures NewNotice(title) == Notice(title, None, None, None, None, None, Default, None)
  {
  }

  // ---------------------------------------------------------------------
  // Queues of notices

  /** `queue.contains(n)`, under the notice equality. */
  predicate Contains(queue: seq<Notice>, n: Notice) {
    exists i | 0 <= i < |queue| :: Same(queue[i], n)
  }

  /** No two queued notices are equal. */
  predicate NoDuplicates(queue: seq<Notice>) {
    forall i, j | 0 <= i < j < |queue| :: !Same(queue[i], queue[j])
  }

  /** `queue.removeAll(where: { $0 == n })` */
  function Without(queue: seq<Notice>, n: Notice): (r: seq<Notice>)
    ensures |r| <= |queue|
    ensures !Contains(r, n)
    ensures forall i | 0 <= i < |queue| && !Same(queue[i], n) :: queue[i] in r
    ensures forall x | x in r :: x in queue
  {
    if queue == [] then []
    else if Same(queue[0], n) then Without(queue[1..], n)
    else [queue[0]] + Without(queue[1..], n)
  }

  /** Removal keeps the order of the notices it keeps: it distributes over concatenation. */
  lemma {:induction false} WithoutConcat(a: seq<Notice>, b: seq<Notice>, n: Notice)
    ensures Without(a + b, n) == Without(a, n) + Without(b, n)
  {
    if a == [] {
      assert a + b == b;
    } else {
      assert (a + b)[0] == a[0] && (a + b)[1..] == a[1..] + b;
      WithoutConcat(a[1..], b, n);
      if !Same(a[0], n) {
        assert [a[0]] + (Without(a[1..], n) + Without(b, n)) == ([a[0]] + Without(a[1..], n)) + Without(b, n);
      }
    }
  }

  /** A queue with nothing equal to `n` is left as it is. */
  lemma {:induction false} WithoutAbsent(queue: seq<Notice>, n: Notice)
    requires !Contains(queue, n)
    ensures Without(queue, n) == queue
  {
    if queue != [] {
      assert !Same(queue[0], n);
      assert !Contains(queue[1..], n) by {
        forall i | 0 <= i < |queue[1..]| ensures !Same(queue[1..][i], n) {
          assert queue[1..][i] == queue[i + 1];
        }
      }
      WithoutAbsent(queue[1..], n);
    }
  }

  /** Whatever the reduced queue contains, the original queue contained. */
  lemma WithoutContainsOnlyQueued(queue: seq<Notice>, n: Notice, x: Notice)
    ensures Contains(Without(queue, n), x) ==> Contains(queue, x)
  {
    var rest := Without(queue, n);
    if Contains(rest, x) {
      var i :| 0 <= i < |rest| && Same(rest[i], x);
      assert rest[i] in queue;
      var k :| 0 <= k < |queue| && queue[k] == rest[i];
    }
  }

  /** Removing notices from a duplicate-free queue leaves it duplicate-free. */
  lemma {:induction false} WithoutKeepsNoDuplicates(queue: seq<Notice>, n: Notice)
    requires NoDuplicates(queue)
    ensures NoDuplicates(Without(queue, n))
  {
    if queue != [] {
      var tail := queue[1..];
      assert NoDuplicates(tail) by {
        forall i, j | 0 <= i < j < |tail| ensures !Same(tail[i], tail[j]) {
          assert tail[i] == queue[i + 1] && tail[j] == queue[j + 1];
        }
      }
      WithoutKeepsNoDuplicates(tail, n);
      if !Same(queue[0], n) {
        var rest := Without(tail, n);
        forall j | 0 <= j < |rest| ensures !Same(queue[0], rest[j]) {
          assert rest[j] in tail;
          var k :| 0 <= k < |tail| && tail[k] == rest[j];
          assert tail[k] == queue[k + 1];
        }
      }
    }
  }
}
