/**
SMS notices: how many segments a text is billed as, and the monthly cap on what goes out through
the shared account.
*/
module Sms {
  import opened Phones

  // -------------------------------------------------------------------------
  // Segments
  // -------------------------------------------------------------------------

  const GSM_BASIC: string :=
    "@£$¥èéùìòÇ\nØø\rÅåΔ_ΦΓΛΩΠΨΣΘΞ ÆæßÉ!\"#¤%&'()*+,-./0123456789:;<=>?" +
    "¡ABCDEFGHIJKLMNOPQRSTUVWXYZÄÖÑÜ§¿abcdefghijklmnopqrstuvwxyzäöñüà"

  const GSM_EXTENDED: string := "^{}\\[~]|€"

  predicate IsGsm(text: string) {
    forall c <- text :: c in GSM_BASIC || c in GSM_EXTENDED
  }

  function GsmLength(text: string): nat {
    if text == "" then 0 else (if text[0] in GSM_EXTENDED then 2 else 1) + GsmLength(text[1..])
  }

  /** UTF-16 code units: two for a character outside the basic plane. */
  function Utf16Length(text: string): nat {
    if text == "" then 0 else (if text[0] as int > 0xFFFF then 2 else 1) + Utf16Length(text[1..])
  }

  function Parts(length: nat, single: nat, part: nat): nat
    requires part > 0
  {
    if length <= single then 1 else (length + part - 1) / part
  }

  function Segments(text: string): nat {
    if text == "" then 0
    else if IsGsm(text) then Parts(GsmLength(text), 160, 153)
    else Parts(Utf16Length(text), 70, 67)
  }

  lemma {:induction false} LengthsAppend(text: string, more: string)
    ensures GsmLength(text + more) == GsmLength(text) + GsmLength(more)
    ensures Utf16Length(text + more) == Utf16Length(text) + Utf16Length(more)
  {
    if text == "" {
      assert text + more == more;
    } else {
      LengthsAppend(text[1..], more);
      assert (text + more)[1..] == text[1..] + more;
    }
  }

  /** The characters of the GSM alphabet that take an escape. */
  predicate TakesEscape(c: char) {
    || c == '^' || c == '{' || c == '}' || c == '\\' || c == '[' || c == '~' || c == ']' || c == '|' || c == '€'
  }

  /** Each character costs what it costs anywhere, and one that is in neither GSM table changes the alphabet. */
  lemma EachCharacterCounts(text: string, c: char)
    ensures GsmLength(text + [c]) == GsmLength(text) + (if TakesEscape(c) then 2 else 1)
    ensures Utf16Length(text + [c]) == Utf16Length(text) + (if c as int >= 0x1_0000 then 2 else 1)
    ensures IsGsm(text + [c]) <==> IsGsm(text) && (c in GSM_BASIC || TakesEscape(c))
  {
    LengthsAppend(text, [c]);
    assert [c][1..] == "";
    EscapesAre(c);
    assert forall d :: d in text + [c] <==> d in text || d == c;
  }

  lemma EscapesAre(c: char)
    ensures c in GSM_EXTENDED <==> TakesEscape(c)
  {
    var x := GSM_EXTENDED;
    assert |x| == 9 && x[0] == '^' && x[1] == '{' && x[2] == '}' && x[3] == '\\' && x[4] == '[';
    assert x[5] == '~' && x[6] == ']' && x[7] == '|' && x[8] == '€';
  }

  /** A character costs at most twice in GSM what it costs in UTF-16. */
  lemma {:induction false} LengthsCompare(text: string)
    ensures |text| <= Utf16Length(text)
    ensures |text| <= GsmLength(text) <= 2 * |text|
  {
    if text != "" {
      LengthsCompare(text[1..]);
    }
  }

  /** Appending text never lowers the bill, even where it switches the alphabet. */
  lemma SegmentsAreMonotone(text: string, more: string)
    ensures Segments(text) <= Segments(text + more)
  {
    LengthsAppend(text, more);
    LengthsCompare(text);
    LengthsCompare(more);
    if text != "" && IsGsm(text + more) {
      forall c <- text ensures c in GSM_BASIC || c in GSM_EXTENDED {
        assert c in text + more;
      }
    }
  }

  /** The fewest messages that hold the text: one of full length, or parts with room for a header. */
  predicate AreFewest(n: nat, length: nat, single: nat, part: nat) {
    if length <= single then n == 1 else part * (n - 1) < length <= part * n
  }

  lemma SegmentsAreFewest(text: string)
    requires text != ""
    ensures AreFewest(Segments(text), if IsGsm(text) then GsmLength(text) else Utf16Length(text),
                      if IsGsm(text) then 160 else 70, if IsGsm(text) then 153 else 67)
  {
  }

  // -------------------------------------------------------------------------
  // The monthly cap
  // -------------------------------------------------------------------------

  datatype Account = Own | Platform | NoAccount
  datatype Outcome = Sent | Failed | Skipped
  datatype LogRow = LogRow(month: int, account: Account, outcome: Outcome, segments: nat)

  datatype Settings = Settings(ownKey: bool, platformKey: bool, limit: nat)

  /**
  One request to send: whether the number can be texted at all, what the text costs, what the
  provider answers and whether the log row can be written.
  */
  datatype Request = Request(month: int, reachable: bool, segments: nat, accepted: bool, logged: bool)

  predicate Reachable(phone: string) {
    phone != "" && IsGeorgianMobile(phone)
  }

  /** The log, and what the provider accepted whether or not a row was written. */
  datatype State = State(log: seq<LogRow>, accepted: seq<LogRow>)

  function SentInMonth(rows: seq<LogRow>, month: int): nat {
    if rows == [] then 0
    else
      var last := rows[|rows| - 1];
      SentInMonth(rows[..|rows| - 1], month)
      + if last.outcome == Sent && last.account == Platform && last.month == month then last.segments else 0
  }

  function ResolveAccount(settings: Settings, log: seq<LogRow>, month: int, segments: nat): Account {
    if settings.ownKey then Own
    else if !settings.platformKey then NoAccount
    else if SentInMonth(log, month) + segments > settings.limit then NoAccount
    else Platform
  }

  /** The log row of one attempt. */
  function Attempt(settings: Settings, log: seq<LogRow>, r: Request): LogRow {
    var account := if r.reachable then ResolveAccount(settings, log, r.month, r.segments) else NoAccount;
    var outcome := if account == NoAccount then Skipped else if r.accepted then Sent else Failed;
    LogRow(r.month, account, outcome, r.segments)
  }

  /** Who pays, and whether it goes out: the business's own key, else the shared account up to its limit. */
  lemma AttemptIs(settings: Settings, log: seq<LogRow>, r: Request)
    ensures var row := Attempt(settings, log, r);
            && row.month == r.month && row.segments == r.segments
            && (row.account == Own <==> r.reachable && settings.ownKey)
            && (row.account == Platform <==>
                  r.reachable && !settings.ownKey && settings.platformKey
                  && SentInMonth(log, r.month) + r.segments <= settings.limit)
            && (row.outcome == Skipped <==> row.account == NoAccount)
            && (row.outcome == Sent <==> row.account != NoAccount && r.accepted)
  {
  }

  function Send(settings: Settings, s: State, r: Request): State {
    var row := Attempt(settings, s.log, r);
    State(
      if r.logged then s.log + [row] else s.log,
      if row.outcome == Sent then s.accepted + [row] else s.accepted)
  }

  function Run(settings: Settings, s: State, rs: seq<Request>): State {
    if rs == [] then s else Send(settings, Run(settings, s, rs[..|rs| - 1]), rs[|rs| - 1])
  }

  /** What the log shows never passes the cap, in any month of any run of sends. */
  lemma {:induction false} LoggedStaysWithinCap(settings: Settings, rs: seq<Request>, month: int)
    ensures SentInMonth(Run(settings, State([], []), rs).log, month) <= settings.limit
    ensures settings.ownKey ==> SentInMonth(Run(settings, State([], []), rs).log, month) == 0
  {
    if rs != [] {
      LoggedStaysWithinCap(settings, rs[..|rs| - 1], month);
      SentAppend(settings, Run(settings, State([], []), rs[..|rs| - 1]), rs[|rs| - 1], month);
    }
  }

  lemma SentAppend(settings: Settings, s: State, r: Request, month: int)
    ensures var row := Attempt(settings, s.log, r);
            var counts := row.outcome == Sent && row.account == Platform && row.month == month;
            var cost := if counts then row.segments else 0;
            var logged := if r.logged then cost else 0;
            && SentInMonth(Send(settings, s, r).log, month) == SentInMonth(s.log, month) + logged
            && SentInMonth(Send(settings, s, r).accepted, month) == SentInMonth(s.accepted, month) + cost
  {
    var row := Attempt(settings, s.log, r);
    assert (s.log + [row])[..|s.log|] == s.log;
    assert (s.accepted + [row])[..|s.accepted|] == s.accepted;
  }

  /** The segments of this month that were accepted while their row could not be written. */
  function Unlogged(settings: Settings, rs: seq<Request>, month: int): nat {
    if rs == [] then 0
    else
      var last := rs[|rs| - 1];
      var row := Attempt(settings, Run(settings, State([], []), rs[..|rs| - 1]).log, last);
      Unlogged(settings, rs[..|rs| - 1], month)
      + if !last.logged && row.outcome == Sent && row.account == Platform && row.month == month then row.segments else 0
  }

  /** What the provider accepted is the logged part plus exactly the part whose row was lost. */
  lemma {:induction false} AcceptedIsLoggedPlusLost(settings: Settings, rs: seq<Request>, month: int)
    ensures var s := Run(settings, State([], []), rs);
            SentInMonth(s.accepted, month) == SentInMonth(s.log, month) + Unlogged(settings, rs, month)
  {
    if rs != [] {
      AcceptedIsLoggedPlusLost(settings, rs[..|rs| - 1], month);
      SentAppend(settings, Run(settings, State([], []), rs[..|rs| - 1]), rs[|rs| - 1], month);
    }
  }

  /** The cap holds for what the provider accepted when every row is written... */
  lemma CapHoldsWhenLogged(settings: Settings, rs: seq<Request>, month: int)
    requires forall r <- rs :: r.logged
    ensures SentInMonth(Run(settings, State([], []), rs).accepted, month) <= settings.limit
  {
    AcceptedIsLoggedPlusLost(settings, rs, month);
    LoggedStaysWithinCap(settings, rs, month);
    NothingLost(settings, rs, month);
  }

  lemma {:induction false} NothingLost(settings: Settings, rs: seq<Request>, month: int)
    requires forall r <- rs :: r.logged
    ensures Unlogged(settings, rs, month) == 0
  {
    if rs != [] {
      NothingLost(settings, rs[..|rs| - 1], month);
    }
  }

  predicate AllAre(rs: seq<Request>, r: Request) {
    forall k :: 0 <= k < |rs| ==> rs[k] == r
  }

  lemma SendUnlogged(settings: Settings, s: State, r: Request)
    requires !settings.ownKey && settings.platformKey && r.segments <= settings.limit
    requires r.reachable && r.accepted && !r.logged && s.log == []
    ensures Send(settings, s, r).log == []
    ensures SentInMonth(Send(settings, s, r).accepted, r.month) == SentInMonth(s.accepted, r.month) + r.segments
  {
    SentAppend(settings, s, r, r.month);
  }

  lemma OneMoreTime(n: nat, k: nat)
    ensures (n + 1) * k == n * k + k
  {
  }

  /** ...and not otherwise: while rows are lost, the shared account goes past any cap. */
  lemma {:induction false} LostRowsPassAnyCap(settings: Settings, r: Request, rs: seq<Request>)
    requires !settings.ownKey && settings.platformKey && r.segments <= settings.limit
    requires r.reachable && r.accepted && !r.logged && AllAre(rs, r)
    ensures var s := Run(settings, State([], []), rs);
            s.log == [] && SentInMonth(s.accepted, r.month) == |rs| * r.segments
  {
    if rs != [] {
      var fewer := rs[..|rs| - 1];
      LostRowsPassAnyCap(settings, r, fewer);
      SendUnlogged(settings, Run(settings, State([], []), fewer), r);
      OneMoreTime(|fewer|, r.segments);
    }
  }

  lemma CopiesPass(n: nat, k: nat)
    requires n > 0 && k > 0
    ensures n * k >= n
  {
  }

  /** A request of the month that the shared account pays for while its row cannot be written. */
  predicate SlipsBy(settings: Settings, r: Request, month: int) {
    && r.month == month && !settings.ownKey && settings.platformKey
    && r.reachable && r.accepted && !r.logged && 0 < r.segments <= settings.limit
  }

  ghost predicate DrawnFrom(rs: seq<Request>, kinds: iset<Request>) {
    forall k :: 0 <= k < |rs| ==> rs[k] in kinds
  }

  lemma {:induction false} NothingSlipsBy(settings: Settings, rs: seq<Request>, month: int)
    requires forall k :: 0 <= k < |rs| ==> !SlipsBy(settings, rs[k], month)
    ensures Unlogged(settings, rs, month) == 0
  {
    if rs != [] {
      NothingSlipsBy(settings, rs[..|rs| - 1], month);
      assert !SlipsBy(settings, rs[|rs| - 1], month);
    }
  }

  lemma CapIsPassed(settings: Settings, r: Request) returns (rs: seq<Request>)
    requires SlipsBy(settings, r, r.month)
    ensures AllAre(rs, r) && SentInMonth(Run(settings, State([], []), rs).accepted, r.month) > settings.limit
  {
    rs := seq(settings.limit + 1, _ => r);
    LostRowsPassAnyCap(settings, r, rs);
    CopiesPass(settings.limit + 1, r.segments);
  }

  /**
  For every mix of requests and any settings: what the shared account sends in a month stays within the cap on
  every run, if and only if none of the requests can slip by.
  */
  lemma CapHoldsOnEveryRunIff(settings: Settings, kinds: iset<Request>, month: int)
    ensures (forall rs :: DrawnFrom(rs, kinds) ==>
               SentInMonth(Run(settings, State([], []), rs).accepted, month) <= settings.limit)
       <==> forall r :: r in kinds ==> !SlipsBy(settings, r, month)
  {
    if forall r :: r in kinds ==> !SlipsBy(settings, r, month) {
      forall rs | DrawnFrom(rs, kinds)
        ensures SentInMonth(Run(settings, State([], []), rs).accepted, month) <= settings.limit
      {
        NothingSlipsBy(settings, rs, month);
        AcceptedIsLoggedPlusLost(settings, rs, month);
        LoggedStaysWithinCap(settings, rs, month);
      }
    } else {
      var r :| r in kinds && SlipsBy(settings, r, month);
      var rs := CapIsPassed(settings, r);
      assert DrawnFrom(rs, kinds);
    }
  }

  lemma CapFailsWhenARowIsLost()
    ensures var settings, r := Settings(false, true, 1), Request(0, true, 1, true, false);
            SentInMonth(Run(settings, State([], []), [r, r]).accepted, 0) == 2 > settings.limit
  {
    var r := Request(0, true, 1, true, false);
    LostRowsPassAnyCap(Settings(false, true, 1), r, [r, r]);
  }

  class SmsDesk {
    var log: seq<LogRow>
    ghost var accepted: seq<LogRow>

    constructor ()
      ensures log == [] && accepted == []
    {
      log, accepted := [], [];
    }

    /** Fills the row step by step, as the outcome becomes known, and writes it at the end. */
    method SendText(settings: Settings, month: int, phone: string, text: string, accepts: bool, logs: bool)
      returns (row: LogRow)
      modifies this
      ensures row.segments == Segments(text)
      ensures var r := Request(month, Reachable(phone), Segments(text), accepts, logs);
              && row == Attempt(settings, old(log), r)
              && State(log, accepted) == Send(settings, State(old(log), old(accepted)), r)
    {
      row := LogRow(month, NoAccount, Skipped, Segments(text));
      if Reachable(phone) {
        var account := ResolveAccount(settings, log, month, row.segments);
        if account != NoAccount {
          row := row.(account := account);
          if accepts {
            row := row.(outcome := Sent);
            accepted := accepted + [row];
          } else {
            row := row.(outcome := Failed);
          }
        }
      }
      if logs {
        log := log + [row];
      }
    }
  }
}
