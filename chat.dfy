/**
 * The chat page (frontend/src/pages/Chat.tsx): the relative "last message"
 * time shown beside each conversation, and the page state changed by selecting
 * a conversation and sending a message.
 */
module Chat {
  import opened Wrappers
  import Text

  // ---------------------------------------------------------------------------
  // formatLastMessageTime

  /** The coarsest unit the label uses, with its whole count. */
  datatype Bucket = Now | Minutes(n: nat) | Hours(n: nat) | Days(n: nat)

  const MsPerMinute := 60000
  const MsPerHour := 3600000
  const MsPerDay := 86400000

  /** Division with a positive divisor has one answer: the quotient is fixed by
      any decomposition with a remainder in range. */
  lemma {:induction false} DivisionUnique(x: int, m: int, q: int, s: int)
    requires m > 0 && 0 <= s < m && x == q * m + s
    ensures x / m == q
  {
    var d := q - x / m;
    assert d * m == x % m - s;
    if d >= 1 {
      MulAtLeast(d, m);
    } else if d <= -1 {
      MulAtLeast(-d, m);
    }
  }

  lemma {:induction false} MulAtLeast(d: int, m: int)
    requires d >= 1 && m >= 0
    ensures d * m >= m
  {
    if d > 1 {
      MulAtLeast(d - 1, m);
      assert d * m == (d - 1) * m + m;
    }
  }

  /** `Math.floor(Math.floor(x / a) / b)` is `Math.floor(x / (a * b))`: for a
      positive divisor, Dafny's `/` is the floor, negative dividends included. */
  lemma {:induction false} NestedFloor(x: int, a: int, b: int)
    requires a > 0 && b > 0
    ensures (x / a) / b == x / (a * b)
  {
    var q, r := x / a, x % a;
    var q2, r2 := q / b, q % b;
    Regroup(q2, r2, r, a, b);
    RemainderInRange(r2, r, a, b);
    DivisionUnique(x, a * b, q2, r2 * a + r);
  }

  lemma Regroup(q2: int, r2: int, r: int, a: int, b: int)
    ensures (q2 * b + r2) * a + r == q2 * (a * b) + (r2 * a + r)
  {
  }

  /** The combined remainder of two divisions stays below the product of the
      divisors. */
  lemma RemainderInRange(r2: int, r: int, a: int, b: int)
    requires 0 <= r2 < b && 0 <= r < a
    ensures 0 <= r2 * a + r < a * b
  {
    MulAtLeast(b - r2, a);
    assert (b - r2) * a == a * b - r2 * a;
  }

  /** The branches of `formatLastMessageTime` on `diffMs`, the elapsed
      milliseconds (negative when the time lies in the future). */
  function LastMessageBucket(diffMs: int): (b: Bucket)
    ensures b == Now <==> diffMs / MsPerMinute < 1
    ensures b.Minutes? <==> 1 <= diffMs / MsPerMinute < 60
    ensures b.Hours? <==> 60 <= diffMs / MsPerMinute && diffMs / MsPerHour < 24
    ensures b.Days? <==> diffMs / MsPerDay >= 1
    ensures b.Minutes? ==> 1 <= b.n <= 59 && b.n == diffMs / MsPerMinute
    ensures b.Hours? ==> 1 <= b.n <= 23 && b.n == diffMs / MsPerHour
    ensures b.Days? ==> 1 <= b.n && b.n == diffMs / MsPerDay
  {
    NestedFloor(diffMs, MsPerMinute, 60);
    NestedFloor(diffMs, MsPerHour, 24);
    var diffMins := diffMs / MsPerMinute;
    var diffHours := diffMins / 60;
    var diffDays := diffHours / 24;
    if diffMins < 1 then Now
    else if diffMins < 60 then Minutes(diffMins)
    else if diffHours < 24 then Hours(diffHours)
    else Days(diffDays)
  }

  /** Orders the labels: by unit first, then by count. */
  function Rank(b: Bucket): int
  {
    match b
    case Now => 0
    case Minutes(n) => n
    case Hours(n) => 60 + n
    case Days(n) => 24 * 60 + n
  }

  /** More elapsed time never gives an earlier label: the label grows with the
      age of the message. */
  lemma {:induction false} BucketMonotone(d1: int, d2: int)
    requires d1 <= d2
    ensures Rank(LastMessageBucket(d1)) <= Rank(LastMessageBucket(d2))
  {
    DivMonotone(d1, d2, MsPerMinute);
    DivMonotone(d1, d2, MsPerHour);
    DivMonotone(d1, d2, MsPerDay);
  }

  lemma {:induction false} DivMonotone(x: int, y: int, m: int)
    requires x <= y && m > 0
    ensures x / m <= y / m
  {
    var d := x / m - y / m;
    if d >= 1 {
      MulAtLeast(d, m);
    }
  }

  function UnitSuffix(b: Bucket): string
  {
    match b
    case Now => ""
    case Minutes(_) => "m"
    case Hours(_) => "h"
    case Days(_) => "d"
  }

  /** The label text: `now`, or the count followed by `m`, `h` or `d`. */
  function Render(b: Bucket): (s: string)
    ensures b == Now <==> s == "now"
    ensures b != Now ==> s == Text.NatToString(b.n) + UnitSuffix(b)
  {
    match b
    case Now => "now"
    case _ =>
      var s := Text.NatToString(b.n) + UnitSuffix(b);
      assert s[0] == Text.NatToString(b.n)[0];
      s
  }

  /** Reads a label back: "now", or a decimal numeral as `${n}` writes it
      followed by one unit letter. */
  function ParseLabel(s: string): (b: Option<Bucket>)
    ensures b.Some? && b.value != Now ==> |s| >= 2 && Text.IsDigit(s[0])
    ensures b.Some? && b.value != Now ==> Text.IsNumeral(s[..|s| - 1]) && s[|s| - 1] in "mhd"
  {
    if s == "now" then Some(Now)
    else if |s| < 2 || !Text.IsNumeral(s[..|s| - 1]) then None
    else
      var n := Text.ParseNat(s[..|s| - 1]);
      match s[|s| - 1]
      case 'm' => Some(Minutes(n))
      case 'h' => Some(Hours(n))
      case 'd' => Some(Days(n))
      case _ => None
  }

  /** Every label reads back as its bucket, so different buckets never share a
      label. */
  lemma {:induction false} ParseRender(b: Bucket)
    ensures ParseLabel(Render(b)) == Some(b)
  {
    if b != Now {
      var s := Render(b);
      var digits := Text.NatToString(b.n);
      assert s[..|s| - 1] == digits;
      assert Text.IsDigit(s[0]);
      Text.ParseNatToString(b.n);
    }
  }

  /** Every text the reader accepts is the label of the bucket it reads: the two
      are inverse, so a label names exactly one bucket and a bucket one label. */
  lemma {:induction false} RenderParse(s: string)
    requires ParseLabel(s).Some?
    ensures Render(ParseLabel(s).value) == s
  {
    if s != "now" {
      var digits := s[..|s| - 1];
      Text.NatToStringParseNat(digits);
      assert s == digits + [s[|s| - 1]];
    }
  }

  /** `formatLastMessageTime(date)` against the current time `now`, both in
      milliseconds since the epoch. */
  function FormatLastMessageTime(now: int, time: int): (s: string)
    ensures s == "now" <==> (now - time) / MsPerMinute < 1
    ensures s == Render(LastMessageBucket(now - time))
    ensures ParseLabel(s) == Some(LastMessageBucket(now - time))
  {
    ParseRender(LastMessageBucket(now - time));
    Render(LastMessageBucket(now - time))
  }

  // ---------------------------------------------------------------------------
  // The page component

  datatype Message = Message(id: string, senderId: string, text: string, timestamp: int)

  datatype ChatUser = ChatUser(id: string, name: string)

  /** The sender id of the signed-in user's own messages. */
  const CurrentSender := "current"

  /** `mockMessages[user.id] || []`. */
  function Thread(threads: map<string, seq<Message>>, id: string): (t: seq<Message>)
    ensures id in threads ==> t == threads[id]
    ensures id !in threads ==> t == []
  {
    if id in threads then threads[id] else []
  }

  /** The guard of `handleSendMessage`, `!newMessage.trim() || !selectedUser`,
      negated. */
  function CanSend(newMessage: string, hasSelection: bool): (ok: bool)
    ensures ok <==> !Text.IsBlank(newMessage) && hasSelection
  {
    Text.TrimEmptyIffBlank(newMessage);
    Text.Trim(newMessage) != "" && hasSelection
  }

  /** `messages` is the stored thread followed only by the signed-in user's own
      messages. */
  predicate ExtendsThread(messages: seq<Message>, stored: seq<Message>)
  {
    stored <= messages
    && forall i :: |stored| <= i < |messages| ==> messages[i].senderId == CurrentSender
  }

  /** Sending one's own message keeps the conversation an extension of its
      stored thread. */
  lemma OwnMessageExtendsThread(messages: seq<Message>, stored: seq<Message>, m: Message)
    requires ExtendsThread(messages, stored) && m.senderId == CurrentSender
    ensures ExtendsThread(messages + [m], stored)
  {
  }

  class ChatPage {
    /** The stored conversations, by the other user's id. */
    const threads: map<string, seq<Message>>
    /** The conversation list, in display order. */
    const connectedUsers: seq<ChatUser>
    var signedIn: bool
    var selectedUser: Option<ChatUser>
    var messages: seq<Message>
    var newMessage: string

    /** The open conversation shows its stored thread followed only by messages
        the signed-in user sent; with none open, nothing is shown. */
    ghost predicate Valid()
      reads this
    {
      (selectedUser.None? ==> messages == [])
      && (selectedUser.Some? ==> ExtendsThread(messages, Thread(threads, selectedUser.value.id)))
    }

    constructor (threads: map<string, seq<Message>>, connectedUsers: seq<ChatUser>)
      ensures Valid()
      ensures this.threads == threads && this.connectedUsers == connectedUsers
      ensures !signedIn && selectedUser == None && messages == [] && newMessage == ""
    {
      this.threads := threads;
      this.connectedUsers := connectedUsers;
      signedIn := false;
      selectedUser := None;
      messages := [];
      newMessage := "";
    }

    /** `handleUserSelect`. */
    method UserSelect(user: ChatUser)
      modifies this`selectedUser, this`messages
      ensures Valid()
      ensures selectedUser == Some(user)
      ensures messages == Thread(threads, user.id)
    {
      selectedUser := Some(user);
      messages := Thread(threads, user.id);
    }

    /** The mount effect: without a stored user the page leaves (to the login
        page); otherwise the first conversation, if any, is opened. */
    method Mount(hasSavedUser: bool)
      requires Valid()
      modifies this`signedIn, this`selectedUser, this`messages
      ensures Valid()
      ensures signedIn == (old(signedIn) || hasSavedUser)
      ensures hasSavedUser && connectedUsers != [] ==>
        selectedUser == Some(connectedUsers[0]) && messages == Thread(threads, connectedUsers[0].id)
      ensures !hasSavedUser || connectedUsers == [] ==>
        selectedUser == old(selectedUser) && messages == old(messages)
    {
      if hasSavedUser {
        signedIn := true;
        if |connectedUsers| > 0 {
          UserSelect(connectedUsers[0]);
        }
      }
    }

    method TypeMessage(text: string)
      requires Valid()
      modifies this`newMessage
      ensures Valid()
      ensures newMessage == text
    {
      newMessage := text;
    }

    /** `handleSendMessage`, with the clock reading and the id it yields passed
        in: a blank message or no open conversation changes nothing; otherwise
        exactly one message, the untrimmed text from "current", is appended
        and the input is cleared. */
    method SendMessage(id: string, timestamp: int) returns (sent: bool)
      requires Valid()
      modifies this`messages, this`newMessage
      ensures Valid()
      ensures sent == CanSend(old(newMessage), selectedUser.Some?)
      ensures !sent ==> messages == old(messages) && newMessage == old(newMessage)
      ensures sent ==>
        messages == old(messages) + [Message(id, CurrentSender, old(newMessage), timestamp)]
        && newMessage == ""
    {
      if !CanSend(newMessage, selectedUser.Some?) {
        return false;
      }
      OwnMessageExtendsThread(messages, Thread(threads, selectedUser.value.id),
        Message(id, CurrentSender, newMessage, timestamp));
      messages := messages + [Message(id, CurrentSender, newMessage, timestamp)];
      newMessage := "";
      sent := true;
    }
  }
}
