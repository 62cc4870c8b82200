/**
  The answer card: its relative-time label, the colour of its vote count, the
  accept button and accepted markers, and the store calls its buttons make.
 */
module AnswerCard {
  import Text
  import opened Wrappers

  const MillisPerHour: int := 1000 * 60 * 60
  const MillisPerDay: int := 24 * MillisPerHour

  /** The three shapes of `formatTime`'s result. */
  datatype TimeLabel = JustNow | HoursAgo(hours: nat) | DaysAgo(days: nat)

  /** `formatTime` before rendering, on timestamps in milliseconds:
      `diffInHours` is the floor of the elapsed time in hours (for a positive
      divisor `/` is floor division, negative dividends included). */
  function Bucket(now: int, createdAt: int): (l: TimeLabel)
    ensures l.JustNow? <==> now - createdAt < MillisPerHour
    ensures l.HoursAgo? <==> MillisPerHour <= now - createdAt < MillisPerDay
    ensures l.HoursAgo? ==> 1 <= l.hours < 24 && l.hours == (now - createdAt) / MillisPerHour
    ensures l.DaysAgo? ==> l.days >= 1 && l.days == (now - createdAt) / MillisPerDay
  {
    var diffInHours := (now - createdAt) / MillisPerHour;
    if diffInHours < 1 then JustNow
    else if diffInHours < 24 then HoursAgo(diffInHours)
    else
      DaysInHours(now - createdAt);
      DaysAgo(diffInHours / 24)
  }

  /** Whole days are whole hours taken 24 at a time. */
  lemma DaysInHours(elapsed: int)
    ensures elapsed / MillisPerHour / 24 == elapsed / MillisPerDay
  {
    var h, r1 := elapsed / MillisPerHour, elapsed % MillisPerHour;
    var d, r2 := h / 24, h % 24;
    assert elapsed == MillisPerHour * h + r1;
    assert h == 24 * d + r2;
    assert elapsed == MillisPerDay * d + (MillisPerHour * r2 + r1);
    assert 0 <= MillisPerHour * r2 + r1 < MillisPerDay;
  }

  /** The text the label renders as. */
  function Render(l: TimeLabel): (s: string)
    ensures l.JustNow? ==> s == "Just now"
    ensures !l.JustNow? ==> |s| > 5 && Text.AllDigits(s[..|s| - 5]) && s[|s| - 4..] == " ago"
  {
    match l
    case JustNow => "Just now"
    case HoursAgo(h) =>
      var s := Text.NatToString(h) + "h ago";
      assert s[..|s| - 5] == Text.NatToString(h);
      s
    case DaysAgo(d) =>
      var s := Text.NatToString(d) + "d ago";
      assert s[..|s| - 5] == Text.NatToString(d);
      s
  }

  /** `formatTime(createdAt)` at time `now`. */
  function FormatTime(now: int, createdAt: int): (s: string)
    ensures now - createdAt < MillisPerHour ==> s == "Just now"
    ensures MillisPerHour <= now - createdAt < MillisPerDay ==>
              s == Text.NatToString((now - createdAt) / MillisPerHour) + "h ago"
    ensures MillisPerDay <= now - createdAt ==>
              s == Text.NatToString((now - createdAt) / MillisPerDay) + "d ago"
  {
    Render(Bucket(now, createdAt))
  }

  /** Reading a rendered label back. */
  function ParseTimeLabel(s: string): Option<TimeLabel> {
    if s == "Just now" then Some(JustNow)
    else if |s| > 5 && Text.AllDigits(s[..|s| - 5]) && s[|s| - 5..] == "h ago" then
      Some(HoursAgo(Text.DigitsValue(s[..|s| - 5])))
    else if |s| > 5 && Text.AllDigits(s[..|s| - 5]) && s[|s| - 5..] == "d ago" then
      Some(DaysAgo(Text.DigitsValue(s[..|s| - 5])))
    else None
  }

  /** The rendered text determines the label: the three kinds of text never
      coincide, and the number in them is the hour or day count. */
  lemma ParseRender(l: TimeLabel)
    ensures ParseTimeLabel(Render(l)) == Some(l)
  {
    match l
    case JustNow =>
    case HoursAgo(h) =>
      var s := Render(l);
      assert s[..|s| - 5] == Text.NatToString(h);
      assert s[|s| - 5..] == "h ago";
      assert s != "Just now" by { assert s[|s| - 1] == 'o'; }
      Text.DigitsValueOfNatToString(h);
    case DaysAgo(d) =>
      var s := Render(l);
      assert s[..|s| - 5] == Text.NatToString(d);
      assert s[|s| - 5..] == "d ago";
      assert s != "Just now" by { assert s[|s| - 1] == 'o'; }
      assert s[|s| - 5] != 'h';
      Text.DigitsValueOfNatToString(d);
  }

  /** Two timestamps get the same text iff they fall into the same bucket. */
  lemma FormatTimeDistinguishesBuckets(now: int, createdAt1: int, createdAt2: int)
    ensures FormatTime(now, createdAt1) == FormatTime(now, createdAt2) <==>
              Bucket(now, createdAt1) == Bucket(now, createdAt2)
  {
    ParseRender(Bucket(now, createdAt1));
    ParseRender(Bucket(now, createdAt2));
  }

  datatype Answer = Answer(id: string, content: string, author: string, votes: int, isAccepted: bool, createdAt: int)

  /** The card's props; `isQuestionOwner` defaults to false. */
  datatype Props = Props(answer: Answer, questionId: string, isQuestionOwner: bool)

  datatype Tone = Green | Red | Gray

  /** The colour of the vote count. */
  function VoteTone(votes: int): (t: Tone)
    ensures t == Green <==> votes > 0
    ensures t == Red <==> votes < 0
    ensures t == Gray <==> votes == 0
  {
    if votes > 0 then Green else if votes < 0 then Red else Gray
  }

  /** What of the card depends on its props and the clock. */
  datatype CardView = CardView(
    highlighted: bool,
    voteTone: Tone,
    acceptButton: bool,
    acceptedMarker: bool,
    acceptedBadge: bool,
    timeText: string)

  function View(p: Props, now: int): (v: CardView)
    ensures v.highlighted == v.acceptedMarker == v.acceptedBadge == p.answer.isAccepted
    ensures v.acceptButton <==> p.isQuestionOwner && !p.answer.isAccepted
    ensures !(v.acceptButton && v.acceptedMarker)
    ensures v.voteTone == VoteTone(p.answer.votes)
    ensures v.timeText == FormatTime(now, p.answer.createdAt)
  {
    CardView(
      p.answer.isAccepted,
      VoteTone(p.answer.votes),
      p.isQuestionOwner && !p.answer.isAccepted,
      p.answer.isAccepted,
      p.answer.isAccepted,
      FormatTime(now, p.answer.createdAt))
  }

  /** A card rendered without the owner flag never offers to accept. */
  lemma DefaultOwnerNeverOffersAccept(a: Answer, questionId: string, now: int)
    ensures !View(Props(a, questionId, false), now).acceptButton
  {
  }

  datatype Direction = Up | Down

  /** The `voteType` string handed to the store. */
  function DirectionName(d: Direction): (s: string)
    ensures s == "up" <==> d == Up
    ensures s == "down" <==> d == Down
  {
    match d
    case Up => "up"
    case Down => "down"
  }

  /** The calls into the question/answer store, whose effects are not part of this model. */
  datatype StoreCall =
    | VoteAnswer(questionId: string, answerId: string, voteType: string)
    | AcceptAnswer(questionId: string, answerId: string)

  datatype Control = UpButton | DownButton | AcceptButton

  /** `handleVote(voteType)` */
  function HandleVote(p: Props, d: Direction): (c: StoreCall)
    ensures c.VoteAnswer? && c.questionId == p.questionId && c.answerId == p.answer.id
    ensures c.voteType == "up" <==> d == Up
    ensures c.voteType == "down" <==> d == Down
  {
    VoteAnswer(p.questionId, p.answer.id, DirectionName(d))
  }

  /** `handleAccept()` */
  function HandleAccept(p: Props): (c: StoreCall)
    ensures c.AcceptAnswer? && c.questionId == p.questionId && c.answerId == p.answer.id
  {
    AcceptAnswer(p.questionId, p.answer.id)
  }

  /** The store calls a click on a control makes: exactly one, on this card's
      question and answer, a vote for the arrows and an accept for the button. */
  function Click(p: Props, c: Control): (calls: seq<StoreCall>)
    ensures |calls| == 1
    ensures calls[0].questionId == p.questionId && calls[0].answerId == p.answer.id
    ensures calls[0].VoteAnswer? <==> c != AcceptButton
    ensures c == UpButton ==> calls[0].voteType == "up"
    ensures c == DownButton ==> calls[0].voteType == "down"
  {
    match c
    case UpButton => [HandleVote(p, Up)]
    case DownButton => [HandleVote(p, Down)]
    case AcceptButton => [HandleAccept(p)]
  }
}
