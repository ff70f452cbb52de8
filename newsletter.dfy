/**
 * The subscriber sheet ("Рассылка"): `/start` adds the user once, keyed by
 * the id in the first cell; a broadcast reads the sheet's first column and
 * sends the message to every row in turn, counting successes and failures.
 */
module Newsletter {
  import opened Text

  /** The sender of an update; a missing username or name is "". */
  datatype User = User(id: nat, username: string, firstName: string, lastName: string)

  /** The row `saveUserToNewsletter` appends. The id is appended as a number
      and reads back as its decimal text. The full name is not trimmed. */
  function SubscriberRow(u: User, date: string): (row: seq<string>)
    ensures |row| == 4 && row[0] == NatToString(u.id) && row[3] == date
    ensures row[1] == OrElse(u.username, "нет")
    ensures row[2] == OrElse(u.firstName, "") + " " + OrElse(u.lastName, "")
  {
    [NatToString(u.id), OrElse(u.username, "нет"), OrElse(u.firstName, "") + " " + OrElse(u.lastName, ""), date]
  }

  /** `row[0] === key`; an empty row has no first cell and never matches. */
  predicate HasId(row: seq<string>, key: string) {
    |row| > 0 && row[0] == key
  }

  /** `rows.some((row) => row[0] === key)` */
  predicate UserExists(rows: seq<seq<string>>, key: string): (b: bool)
    ensures b <==> key in (set row | row in rows && |row| > 0 :: row[0])
  {
    exists i :: 0 <= i < |rows| && HasId(rows[i], key)
  }

  /** How many rows carry `key` in their first cell. */
  function CountId(rows: seq<seq<string>>, key: string): nat
    decreases |rows|
  {
    if |rows| == 0 then 0
    else CountId(rows[..|rows| - 1], key) + (if HasId(rows[|rows| - 1], key) then 1 else 0)
  }

  lemma {:induction false} CountIdExists(rows: seq<seq<string>>, key: string)
    ensures CountId(rows, key) > 0 <==> UserExists(rows, key)
    decreases |rows|
  {
    if |rows| > 0 {
      var init := rows[..|rows| - 1];
      CountIdExists(init, key);
      if UserExists(init, key) {
        var i :| 0 <= i < |init| && HasId(init[i], key);
        assert HasId(rows[i], key);
      }
      if UserExists(rows, key) && !HasId(rows[|rows| - 1], key) {
        var i :| 0 <= i < |rows| && HasId(rows[i], key);
        assert HasId(init[i], key);
      }
    }
  }

  /** The sheet after one `saveUserToNewsletter`. `stored` says whether the
      read of the sheet and the append both succeeded; either failing is
      caught and leaves the sheet as it was. */
  function AfterSave(rows: seq<seq<string>>, u: User, date: string, stored: bool): (r: seq<seq<string>>)
    ensures stored ==> UserExists(r, NatToString(u.id))
    ensures !stored ==> r == rows
  {
    if stored && !UserExists(rows, NatToString(u.id)) then rows + [SubscriberRow(u, date)] else rows
  }

  /** A save only ever appends at the end, and only the user's own row. */
  lemma SaveOnlyAppends(rows: seq<seq<string>>, u: User, date: string, stored: bool)
    ensures var after := AfterSave(rows, u, date, stored);
      after == rows || after == rows + [SubscriberRow(u, date)]
    ensures AfterSave(rows, u, date, stored) != rows <==> stored && !UserExists(rows, NatToString(u.id))
  {
  }

  /** The id's row count goes from none to one when a save succeeds, and
      never changes otherwise. */
  lemma SaveCount(rows: seq<seq<string>>, u: User, date: string, stored: bool)
    ensures var key := NatToString(u.id);
      CountId(AfterSave(rows, u, date, stored), key) ==
        if stored && CountId(rows, key) == 0 then 1 else CountId(rows, key)
  {
    var key := NatToString(u.id);
    CountIdExists(rows, key);
    var after := AfterSave(rows, u, date, stored);
    if after != rows {
      assert after[..|after| - 1] == rows;
    }
  }

  /** Once the user's row is stored, saving a user with the same id again,
      whatever its username and names, on any date and whatever the outcome
      of the calls, changes nothing. */
  lemma SaveIdempotent(rows: seq<seq<string>>, u: User, v: User, d1: string, d2: string, stored: bool)
    requires v.id == u.id
    ensures var once := AfterSave(rows, u, d1, true);
      AfterSave(once, v, d2, stored) == once
  {
    var once := AfterSave(rows, u, d1, true);
    var key := NatToString(u.id);
    if !UserExists(rows, key) {
      assert HasId(once[|rows|], key);
    }
  }

  /** Saving a new user twice, the second time possibly with a changed
      username or name, leaves exactly one row with that id. */
  lemma SaveTwiceOneRow(rows: seq<seq<string>>, u: User, v: User, d1: string, d2: string, stored: bool)
    requires v.id == u.id
    requires CountId(rows, NatToString(u.id)) == 0
    ensures CountId(AfterSave(AfterSave(rows, u, d1, true), v, d2, stored), NatToString(u.id)) == 1
  {
    SaveCount(rows, u, d1, true);
    SaveIdempotent(rows, u, v, d1, d2, stored);
  }

  /** The subscriber sheet as the row store the bot reads and appends to. */
  class SubscriberSheet {
    var rows: seq<seq<string>>

    constructor (rows: seq<seq<string>>)
      ensures this.rows == rows
    {
      this.rows := rows;
    }

    /** `saveUserToNewsletter`: read the rows, append the user's row unless
        one already has the user's id. `readOk` and `appendOk` are the outcomes
        of the two sheet calls. */
    method SaveUserToNewsletter(u: User, date: string, readOk: bool, appendOk: bool)
      modifies this
      ensures rows == AfterSave(old(rows), u, date, readOk && appendOk)
    {
      if readOk {
        var userExists := UserExists(rows, NatToString(u.id));
        if !userExists && appendOk {
          rows := rows + [SubscriberRow(u, date)];
        }
      }
    }
  }

  /** How many elements of `s` equal `b`. */
  function Count(s: seq<bool>, b: bool): nat
    decreases |s|
  {
    if |s| == 0 then 0 else Count(s[..|s| - 1], b) + (if s[|s| - 1] == b then 1 else 0)
  }

  lemma {:induction false} CountSplit(s: seq<bool>)
    ensures Count(s, true) + Count(s, false) == |s|
    decreases |s|
  {
    if |s| > 0 {
      CountSplit(s[..|s| - 1]);
    }
  }

  lemma {:induction false} CountAll(s: seq<bool>, b: bool)
    requires forall k :: 0 <= k < |s| ==> s[k] == b
    ensures Count(s, b) == |s| && Count(s, !b) == 0
    decreases |s|
  {
    if |s| > 0 {
      CountAll(s[..|s| - 1], b);
    }
  }

  datatype Tally = Tally(successCount: nat, errorCount: nat)

  /** One attempted send: a photo with the message as caption when an image
      is given, the bare message otherwise. The chat is the row's first cell,
      None when the row is empty; whether such a send succeeds is left, like
      every other, to `delivered`. */
  datatype Delivery =
    | PhotoTo(chat: Option<string>, image: string, caption: string)
    | MessageTo(chat: Option<string>, text: string)

  function DeliveryTo(row: seq<string>, message: string, imageUrl: Option<string>): (r: Delivery)
    ensures r.chat == if |row| > 0 then Some(row[0]) else None
    ensures r.PhotoTo? <==> imageUrl.Some? && imageUrl.value != ""
    ensures r.PhotoTo? ==> r.image == imageUrl.value && r.caption == message
    ensures r.MessageTo? ==> r.text == message
  {
    var chat := if |row| > 0 then Some(row[0]) else None;
    if imageUrl.Some? && imageUrl.value != "" then PhotoTo(chat, imageUrl.value, message)
    else MessageTo(chat, message)
  }

  /** `sendNewsletter`. `list` is the result of reading the sheet (None when
      the read fails); `delivered[k]` is whether the send to row k succeeded.
      Every row gets exactly one attempt, in order, whatever happened to the
      ones before it. */
  method SendNewsletter(message: string, imageUrl: Option<string>, list: Option<seq<seq<string>>>, delivered: seq<bool>)
    returns (tally: Tally, attempts: seq<Delivery>)
    requires list.Some? ==> |delivered| == |list.value|
    ensures list.None? ==> tally == Tally(0, 0) && attempts == []
    ensures list.Some? ==> tally == Tally(Count(delivered, true), Count(delivered, false))
    ensures list.Some? ==> |attempts| == |list.value|
    ensures list.Some? ==> forall k :: 0 <= k < |attempts| ==> attempts[k] == DeliveryTo(list.value[k], message, imageUrl)
  {
    if list.None? {
      return Tally(0, 0), [];
    }
    var rows := list.value;
    var successCount, errorCount := 0, 0;
    attempts := [];
    for i := 0 to |rows|
      invariant successCount == Count(delivered[..i], true)
      invariant errorCount == Count(delivered[..i], false)
      invariant |attempts| == i
      invariant forall k :: 0 <= k < i ==> attempts[k] == DeliveryTo(rows[k], message, imageUrl)
    {
      attempts := attempts + [DeliveryTo(rows[i], message, imageUrl)];
      assert delivered[..i + 1][..i] == delivered[..i];
      if delivered[i] {
        successCount := successCount + 1;
      } else {
        errorCount := errorCount + 1;
      }
    }
    assert delivered[..|rows|] == delivered;
    tally := Tally(successCount, errorCount);
  }

  /** Successes and failures together account for every row read. */
  lemma TallyCoversEveryRow(delivered: seq<bool>)
    ensures Count(delivered, true) + Count(delivered, false) == |delivered|
  {
    CountSplit(delivered);
  }

  /** K rows all delivered give K successes and no error; with M failures
      among K, K - M successes and M errors. */
  lemma TallyWithFailures(delivered: seq<bool>, m: nat)
    requires Count(delivered, false) == m
    ensures Count(delivered, true) == |delivered| - m
    ensures (forall k :: 0 <= k < |delivered| ==> delivered[k]) ==> m == 0 && Count(delivered, true) == |delivered|
  {
    CountSplit(delivered);
    if forall k :: 0 <= k < |delivered| ==> delivered[k] {
      CountAll(delivered, true);
    }
  }
}
