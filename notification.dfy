/** The recipient list of the Doing -> Done notice: the loop that collects
    the emails of the users who belong to the application's Done group. */
module Notification {
  import opened Wrappers
  import opened TaskModel

  /** The address one user contributes: theirs, when they are in the group
      and have an email. */
  function Recipient(u: User, group: Option<string>): seq<string>
  {
    if Authorized(u.groupList, group) && u.email.Some? then [u.email.value] else []
  }

  /** The addresses of the group's members that have an email, in user-row order. */
  function Recipients(users: seq<User>, group: Option<string>): (emails: seq<string>)
    ensures |emails| <= |users|
  {
    if |users| == 0 then [] else Recipient(users[0], group) + Recipients(users[1..], group)
  }

  /** An address is on the list exactly when some user in the group has it. */
  lemma {:induction false} RecipientsAreGroupMembers(users: seq<User>, group: Option<string>, e: string)
    ensures e in Recipients(users, group) <==>
      exists u :: u in users && Authorized(u.groupList, group) && u.email == Some(e)
  {
    if |users| > 0 {
      RecipientsAreGroupMembers(users[1..], group, e);
      assert forall u :: u in users <==> u == users[0] || u in users[1..];
    }
  }

  /** The same, for every address at once. */
  lemma RecipientsMembership(users: seq<User>, group: Option<string>)
    ensures forall e :: e in Recipients(users, group) <==>
      exists u :: u in users && Authorized(u.groupList, group) && u.email == Some(e)
  {
    forall e
      ensures e in Recipients(users, group) <==>
        exists u :: u in users && Authorized(u.groupList, group) && u.email == Some(e)
    {
      RecipientsAreGroupMembers(users, group, e);
    }
  }

  /** The list follows the order of the user rows. */
  lemma {:induction false} RecipientsConcat(a: seq<User>, b: seq<User>, group: Option<string>)
    ensures Recipients(a + b, group) == Recipients(a, group) + Recipients(b, group)
  {
    if |a| > 0 {
      assert (a + b)[1..] == a[1..] + b;
      RecipientsConcat(a[1..], b, group);
    } else {
      assert a + b == b;
    }
  }

  /** With no Done group configured nobody is notified. */
  lemma {:induction false} NoGroupNoRecipients(users: seq<User>)
    ensures Recipients(users, None) == []
  {
    if |users| > 0 {
      NoGroupNoRecipients(users[1..]);
    }
  }

  /** The `for` loop of `sendEmailToProjectLead` that pushes each matching email. */
  method CollectRecipients(users: seq<User>, group: Option<string>) returns (emails: seq<string>)
    ensures emails == Recipients(users, group)
  {
    emails := [];
    for i := 0 to |users|
      invariant emails == Recipients(users[..i], group)
    {
      var user := users[i];
      assert users[..i + 1] == users[..i] + [user];
      RecipientsConcat(users[..i], [user], group);
      assert Recipients([user], group) == Recipient(user, group);
      if Authorized(user.groupList, group) {
        if user.email.Some? {
          emails := emails + [user.email.value];
        }
      }
    }
    assert users[..|users|] == users;
  }
}
