/**
 Notification fan-out: the loop that sends one message to each recipient
 after a schedule import and in the admin's `send` broadcast.

 A send either goes through, fails with a Telegram API error that carries a
 description, or fails some other way. Only an API error whose description
 is exactly the "blocked" text removes the recipient; any other API error is
 swallowed and the loop moves on; any other exception escapes the loop and
 ends it, leaving the deletions already made in place.
 */
module Broadcast {
  import opened Text
  import opened Records

  datatype Delivery = Delivered | ApiFailure(description: string) | OtherFailure

  /** The description Telegram gives when the recipient has blocked the bot. */
  const BlockedDescription: string := "Forbidden: bot was blocked by the user"

  predicate Blocked(d: Delivery) {
    d == ApiFailure(BlockedDescription)
  }

  /** The table after the loop, and whether an uncaught exception cut it short. */
  datatype FanOutResult = FanOutResult(users: seq<UserProfile>, aborted: bool)

  /**
   Sends to `recipients` in order, `deliver` giving the outcome of the send
   to each user id, and deletes from `users` each recipient that blocked
   the bot.
   */
  function FanOut(recipients: seq<int>, users: seq<UserProfile>, deliver: int -> Delivery): FanOutResult
    decreases |recipients|
  {
    if |recipients| == 0 then FanOutResult(users, false)
    else
      var id := recipients[0];
      match deliver(id)
      case OtherFailure => FanOutResult(users, true)
      case Delivered => FanOut(recipients[1..], users, deliver)
      case ApiFailure(description) =>
        var kept := if description == BlockedDescription then DeleteUser(users, id) else users;
        FanOut(recipients[1..], kept, deliver)
  }

  /** How many recipients the loop reaches: all of them, or those before the first send that raises. */
  function Reached(recipients: seq<int>, deliver: int -> Delivery): (n: nat)
    ensures n <= |recipients|
    ensures forall i :: 0 <= i < n ==> !deliver(recipients[i]).OtherFailure?
    ensures n < |recipients| ==> deliver(recipients[n]).OtherFailure?
    decreases |recipients|
  {
    if |recipients| == 0 || deliver(recipients[0]).OtherFailure? then 0
    else 1 + Reached(recipients[1..], deliver)
  }

  /** User `id` is a recipient the loop reaches whose send reports that it blocked the bot. */
  predicate BlockedAmongReached(recipients: seq<int>, deliver: int -> Delivery, id: int) {
    exists i :: 0 <= i < Reached(recipients, deliver) && recipients[i] == id && Blocked(deliver(id))
  }

  /**
   The loop is cut short exactly when some send raises something other than
   an API error; otherwise it reaches every recipient.
   */
  lemma {:induction false} FanOutAborts(recipients: seq<int>, users: seq<UserProfile>, deliver: int -> Delivery)
    ensures FanOut(recipients, users, deliver).aborted <==> exists i :: 0 <= i < |recipients| && deliver(recipients[i]).OtherFailure?
    ensures !FanOut(recipients, users, deliver).aborted <==> Reached(recipients, deliver) == |recipients|
    decreases |recipients|
  {
    if |recipients| > 0 {
      if !deliver(recipients[0]).OtherFailure? {
        var kept := if Blocked(deliver(recipients[0])) then DeleteUser(users, recipients[0]) else users;
        FanOutAborts(recipients[1..], kept, deliver);
        assert forall i :: 1 <= i < |recipients| ==> recipients[i] == recipients[1..][i - 1];
        assert forall i :: 0 <= i < |recipients| - 1 ==> recipients[1..][i] == recipients[i + 1];
      }
    }
  }

  /**
   A user leaves the table exactly when the loop reaches them as a recipient
   and their send reports that they blocked the bot; every other row stays.
   */
  lemma {:induction false} FanOutRemovesBlocked(recipients: seq<int>, users: seq<UserProfile>, deliver: int -> Delivery)
    ensures forall u :: u in FanOut(recipients, users, deliver).users <==>
              u in users && !BlockedAmongReached(recipients, deliver, u.userId)
    decreases |recipients|
  {
    if |recipients| > 0 && !deliver(recipients[0]).OtherFailure? {
      var id := recipients[0];
      var tail := recipients[1..];
      var kept := if Blocked(deliver(id)) then DeleteUser(users, id) else users;
      FanOutRemovesBlocked(tail, kept, deliver);
      assert Reached(recipients, deliver) == 1 + Reached(tail, deliver);
      forall x: int
        ensures BlockedAmongReached(recipients, deliver, x) <==>
                (x == id && Blocked(deliver(id))) || BlockedAmongReached(tail, deliver, x)
      {
        if BlockedAmongReached(tail, deliver, x) {
          var i :| 0 <= i < Reached(tail, deliver) && tail[i] == x && Blocked(deliver(x));
          assert recipients[i + 1] == tail[i];
        }
        if BlockedAmongReached(recipients, deliver, x) {
          var i :| 0 <= i < Reached(recipients, deliver) && recipients[i] == x && Blocked(deliver(x));
          if i > 0 {
            assert tail[i - 1] == recipients[i];
          }
        }
        if x == id && Blocked(deliver(id)) {
          assert recipients[0] == x;
        }
      }
    }
  }

  /**
   A send that fails with any other API description, or goes through,
   never removes the recipient.
   */
  lemma NonBlockedKept(recipients: seq<int>, users: seq<UserProfile>, deliver: int -> Delivery, u: UserProfile)
    requires u in users && !Blocked(deliver(u.userId))
    ensures u in FanOut(recipients, users, deliver).users
  {
    FanOutRemovesBlocked(recipients, users, deliver);
  }

  /** The admin's selector: `all` addresses every user, anything else the users whose class starts with it. */
  function Recipients(users: seq<UserProfile>, selector: string): (ids: seq<int>)
    ensures forall id :: id in ids <==>
              exists u :: u in users && u.userId == id && (selector == "all" || StartsWith(u.classLetter, selector))
    decreases |users|
  {
    if |users| == 0 then []
    else
      var rest := Recipients(users[1..], selector);
      assert forall u :: u in users[1..] ==> u in users;
      if selector == "all" || StartsWith(users[0].classLetter, selector) then [users[0].userId] + rest else rest
  }

  /** The `send` branch: the selected recipients, in table order, through the fan-out loop. */
  function SendNotification(users: seq<UserProfile>, selector: string, deliver: int -> Delivery): FanOutResult {
    FanOut(Recipients(users, selector), users, deliver)
  }

  /**
   A user outside the selection is never removed by a broadcast, whatever
   their own sends would report.
   */
  lemma UnselectedKept(users: seq<UserProfile>, selector: string, deliver: int -> Delivery, u: UserProfile)
    requires u in users && UniqueIds(users)
    requires selector != "all" && !StartsWith(u.classLetter, selector)
    ensures u in SendNotification(users, selector, deliver).users
  {
    var ids := Recipients(users, selector);
    forall v | v in users && v.userId == u.userId
      ensures v == u
    {
      var a :| 0 <= a < |users| && users[a] == u;
      var b :| 0 <= b < |users| && users[b] == v;
      assert a == b;
    }
    assert u.userId !in ids;
    FanOutRemovesBlocked(ids, users, deliver);
  }
}
