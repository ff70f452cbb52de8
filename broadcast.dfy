/**
 * The `/broadcast <text>` command: the admin check, the extraction of the
 * message text, the optional image from the replied-to photo, and the run
 * of `sendNewsletter` with its report.
 */
module Broadcast {
  import opened Text
  import opened Newsletter

  /** The allow-list as the bot declares it: ONE element, a comma-joined
      string of three ids. */
  const AdminIds: seq<string> := ["502105220, 5734831768, 451751415"]

  /** The allow-list the declaration evidently means: three ids. */
  const IntendedAdminIds: seq<string> := ["502105220", "5734831768", "451751415"]

  /** `adminIds.includes(id.toString())` */
  predicate IsAdmin(adminIds: seq<string>, id: nat): (b: bool)
    ensures b ==> exists k :: 0 <= k < |adminIds| && IsDigits(adminIds[k])
  {
    NatToString(id) in adminIds
  }

  /** As declared, the allow-list admits nobody: an id prints as digits only,
      and the one element holds a comma. */
  lemma NoSenderIsAdmin(id: nat)
    ensures !IsAdmin(AdminIds, id)
  {
    assert !IsDigit(AdminIds[0][9]);
  }

  /** The decimal text of the three admin ids. */
  lemma AdminIdsPrint()
    ensures NatToString(502105220) == "502105220"
    ensures NatToString(5734831768) == "5734831768"
    ensures NatToString(451751415) == "451751415"
  {
    PrintsAs502105220();
    PrintsAs5734831768();
    PrintsAs451751415();
  }

  lemma PrintsAs502105220()
    ensures NatToString(502105220) == "502105220"
  {
    assert NatToString(502) == "502";
    assert NatToString(502105) == "502105";
  }

  lemma PrintsAs5734831768()
    ensures NatToString(5734831768) == "5734831768"
  {
    assert NatToString(573) == "573";
    assert NatToString(5734831) == "5734831";
  }

  lemma PrintsAs451751415()
    ensures NatToString(451751415) == "451751415"
  {
    assert NatToString(451) == "451";
    assert NatToString(451751) == "451751";
  }

  /** The intended list admits exactly the three listed ids. */
  lemma IntendedAdmins(id: nat)
    ensures IsAdmin(IntendedAdminIds, id) <==> id == 502105220 || id == 5734831768 || id == 451751415
  {
    AdminIdsPrint();
    NatToStringInjective(id, 502105220);
    NatToStringInjective(id, 5734831768);
    NatToStringInjective(id, 451751415);
  }

  const CommandPrefix := "/broadcast "
  const DeniedReply := "У вас нет прав для использования этой команды."
  const UsageReply := "Использование: /broadcast <текст>\nДля отправки с картинкой, ответьте на это сообщение картинкой"

  /** What the handler does with the command: refuse the sender, show the
      usage hint, or broadcast the message. */
  datatype Decision = Denied | Usage | Send(message: string)

  function Decide(adminIds: seq<string>, senderId: nat, text: string): (r: Decision)
    ensures r == Denied <==> !IsAdmin(adminIds, senderId)
    ensures r.Send? ==> r.message != "" && forall j :: 0 <= j ==> !OccursAt(r.message, CommandPrefix, j)
  {
    if !IsAdmin(adminIds, senderId) then Denied
    else match SplitSecond(text, CommandPrefix)
      case None => Usage
      case Some(m) =>
        SplitSecondPiece(text, CommandPrefix);
        if m == "" then Usage else Send(m)
  }

  /** Only an admin gets past the check, and only with a non-empty piece of
      text after "/broadcast "; a non-admin is refused before the text is
      looked at. */
  lemma DecideGates(adminIds: seq<string>, senderId: nat, text: string)
    ensures Decide(adminIds, senderId, text) == Denied <==> !IsAdmin(adminIds, senderId)
    ensures Decide(adminIds, senderId, text).Send? ==>
      SplitSecond(text, CommandPrefix) == Some(Decide(adminIds, senderId, text).message) &&
      Decide(adminIds, senderId, text).message != ""
    ensures IsAdmin(adminIds, senderId) && (forall j :: 0 <= j ==> !OccursAt(text, CommandPrefix, j)) ==>
      Decide(adminIds, senderId, text) == Usage
    ensures IsAdmin(adminIds, senderId) && SplitSecond(text, CommandPrefix).Some? && SplitSecond(text, CommandPrefix).value != "" ==>
      Decide(adminIds, senderId, text) == Send(SplitSecond(text, CommandPrefix).value)
  {
  }

  /** An admin's "/broadcast <m>" sends `m` itself, as long as `m` is not
      empty and does not repeat "/broadcast ". */
  lemma DecideSendsMessage(adminIds: seq<string>, senderId: nat, m: string)
    requires IsAdmin(adminIds, senderId) && m != ""
    requires forall j :: 0 <= j ==> !OccursAt(m, CommandPrefix, j)
    ensures Decide(adminIds, senderId, CommandPrefix + m) == Send(m)
  {
    SplitSecondAfterPrefix(CommandPrefix, m);
  }

  /** With the list as declared, every sender is refused, whatever the text. */
  lemma DeclaredListRefusesAll(senderId: nat, text: string)
    ensures Decide(AdminIds, senderId, text) == Denied
  {
    NoSenderIsAdmin(senderId);
  }

  /** With the intended list, the first admin reaches the broadcast. */
  lemma IntendedListAdmitsAdmin(m: string)
    requires m != "" && forall j :: 0 <= j ==> !OccursAt(m, CommandPrefix, j)
    ensures Decide(IntendedAdminIds, 502105220, CommandPrefix + m) == Send(m)
  {
    IntendedAdmins(502105220);
    DecideSendsMessage(IntendedAdminIds, 502105220, m);
  }

  /** The image to send: the file id of the last (largest) size of the
      replied-to photo, None when the command is not a reply to a photo.
      Telegram never sends an empty size list, which the handler does not
      survive. */
  function ImageOf(replyPhoto: Option<seq<string>>): (r: Option<string>)
    requires replyPhoto.Some? ==> |replyPhoto.value| > 0
    ensures r.Some? <==> replyPhoto.Some?
    ensures r.Some? ==> r.value == replyPhoto.value[|replyPhoto.value| - 1]
  {
    match replyPhoto
    case None => None
    case Some(sizes) => Some(sizes[|sizes| - 1])
  }

  const ReportHead := "Рассылка завершена:\n✅ Успешно: "
  const ErrorsLabel := "\n❌ Ошибок: "

  /** The admin's report after the broadcast. */
  function Report(t: Tally): (r: string)
    ensures OccursAt(r, ReportHead, 0)
    ensures OccursAt(r, NatToString(t.successCount), |ReportHead|)
    ensures |NatToString(t.errorCount)| <= |r| && OccursAt(r, NatToString(t.errorCount), |r| - |NatToString(t.errorCount)|)
  {
    var s, e := NatToString(t.successCount), NatToString(t.errorCount);
    var head := ReportHead + s + ErrorsLabel;
    assert (head + e)[..|ReportHead|] == ReportHead;
    assert (head + e)[|ReportHead|..|ReportHead| + |s|] == s;
    assert (head + e)[|head|..] == e;
    head + e
  }

  /** The report names both counts unambiguously: different tallies never
      read the same. */
  lemma ReportInjective(t1: Tally, t2: Tally)
    ensures Report(t1) == Report(t2) ==> t1 == t2
  {
    var s1, s2 := NatToString(t1.successCount), NatToString(t2.successCount);
    var e1, e2 := NatToString(t1.errorCount), NatToString(t2.errorCount);
    var tail1, tail2 := ErrorsLabel + e1, ErrorsLabel + e2;
    assert Report(t1) == ReportHead + (s1 + tail1);
    assert Report(t2) == ReportHead + (s2 + tail2);
    if Report(t1) == Report(t2) {
      assert s1 + tail1 == Report(t1)[|ReportHead|..];
      assert s2 + tail2 == Report(t2)[|ReportHead|..];
      DigitsBeforeSeparator(s1, tail1, s2, tail2);
      assert e1 == tail1[|ErrorsLabel|..] && e2 == tail2[|ErrorsLabel|..];
      NatToStringInjective(t1.successCount, t2.successCount);
      NatToStringInjective(t1.errorCount, t2.errorCount);
    }
  }

  /** The `/broadcast` handler. `list` and `delivered` are what the sheet read
      and the sends would return if the broadcast runs; the result `tally`
      is None exactly when `sendNewsletter` is never called. */
  method HandleBroadcast(adminIds: seq<string>, senderId: nat, text: string, replyPhoto: Option<seq<string>>,
                         list: Option<seq<seq<string>>>, delivered: seq<bool>)
    returns (reply: string, tally: Option<Tally>, attempts: seq<Delivery>)
    requires replyPhoto.Some? ==> |replyPhoto.value| > 0
    requires list.Some? ==> |delivered| == |list.value|
    ensures !IsAdmin(adminIds, senderId) ==> reply == DeniedReply && tally.None? && attempts == []
    ensures Decide(adminIds, senderId, text) == Usage ==> reply == UsageReply && tally.None? && attempts == []
    ensures Decide(adminIds, senderId, text).Send? ==>
      && tally.Some? && reply == Report(tally.value)
      && tally.value == (if list.None? then Tally(0, 0) else Tally(Count(delivered, true), Count(delivered, false)))
      && |attempts| == (if list.None? then 0 else |list.value|)
      && forall k :: 0 <= k < |attempts| ==>
           attempts[k] == DeliveryTo(list.value[k], Decide(adminIds, senderId, text).message, ImageOf(replyPhoto))
  {
    if !IsAdmin(adminIds, senderId) {
      return DeniedReply, None, [];
    }
    var messageText := SplitSecond(text, CommandPrefix);
    if messageText.None? || messageText.value == "" {
      return UsageReply, None, [];
    }
    var imageUrl := ImageOf(replyPhoto);
    var t;
    t, attempts := SendNewsletter(messageText.value, imageUrl, list, delivered);
    reply := Report(t);
    tally := Some(t);
  }
}
