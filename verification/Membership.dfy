/** The nightly job that brings membership cards in line with the loyalty database. */
module Membership {
  import opened Tables

  // ---------------------------------------------------------------------------------------
  // Levels, their names and their codes.
  // ---------------------------------------------------------------------------------------

  datatype Tier = Associate | Silver | Gold | Platinum | Diamond

  function Name(t: Tier): string {
    match t
    case Associate => "Associate"
    case Silver => "Silver"
    case Gold => "Gold"
    case Platinum => "Platinum"
    case Diamond => "Diamond"
  }

  function ShortForm(t: Tier): string {
    match t
    case Associate => "A"
    case Silver => "S"
    case Gold => "G"
    case Platinum => "P"
    case Diamond => "D"
  }

  function Level(t: Tier): nat {
    match t
    case Associate => 1
    case Silver => 2
    case Gold => 3
    case Platinum => 4
    case Diamond => 5
  }

  /** The tier a stored membership type is read as; anything else reads as the lowest. */
  function TierNamed(membershipType: string): Tier {
    match membershipType
    case "Silver" => Silver
    case "Gold" => Gold
    case "Platinum" => Platinum
    case "Diamond" => Diamond
    case _ => Associate
  }

  /** The tier a loyalty code is read as; the reading is case sensitive. */
  function TierCoded(code: string): Tier {
    match code
    case "S" => Silver
    case "G" => Gold
    case "P" => Platinum
    case "D" => Diamond
    case _ => Associate
  }

  predicate WellFormed(code: string) {
    code in ["A", "S", "G", "P", "D"]
  }

  function LowerChar(c: char): char {
    if 'A' <= c <= 'Z' then (c as int + 32) as char else c
  }

  function Lower(s: string): string {
    seq(|s|, i requires 0 <= i < |s| => LowerChar(s[i]))
  }

  /** membershipDetailsMapping */
  function CardStatus(code: string): string {
    match Lower(code)
    case "s" => "Suspended"
    case "x" => "Cancelled"
    case _ => "Active"
  }

  // ---------------------------------------------------------------------------------------
  // One card.
  // ---------------------------------------------------------------------------------------

  datatype Card = Card(idx: nat, customer: nat, number: string, membershipType: string,
                       previous: Option<string>, status: string, changed: bool)

  /** What the loyalty database says: CURRENT_MEMBERSHIP_STATUS and CARD_STATUS. */
  datatype Meta = Meta(current: string, cardStatus: string)

  datatype Kind = CANCELLED | SUSPENDED | UPGRADE | DOWNGRADE

  datatype LogRow = LogRow(customer: nat, number: string, membershipStatus: string, kind: Kind)

  /** An active card that the loyalty database has cancelled or suspended. */
  function Dropped(card: Card, m: Meta): Option<Kind> {
    if card.status != "Active" then None
    else if Lower(m.cardStatus) == "x" then Some(CANCELLED)
    else if Lower(m.cardStatus) == "s" then Some(SUSPENDED)
    else None
  }

  predicate LevelDiffers(card: Card, m: Meta) {
    Lower(m.current) != Lower(ShortForm(TierNamed(card.membershipType)))
  }

  /** The level was found different by its code and equal by its number: the job returns there and then. */
  predicate Aborts(card: Card, m: Meta) {
    LevelDiffers(card, m) && Level(TierCoded(m.current)) == Level(TierNamed(card.membershipType))
  }

  function SetDropped(m: Meta): Card -> Card {
    (c: Card) => c.(status := CardStatus(m.cardStatus), changed := true)
  }

  function SetLevel(m: Meta, previous: string): Card -> Card {
    (c: Card) => c.(membershipType := Name(TierCoded(m.current)), status := CardStatus(m.cardStatus),
                    previous := Some(previous), changed := true)
  }

  function After(card: Card, m: Meta): Card {
    var c := if Dropped(card, m).Some? then SetDropped(m)(card) else card;
    if LevelDiffers(card, m) then SetLevel(m, card.membershipType)(c) else c
  }

  function LogOf(card: Card, m: Meta, kind: Kind): LogRow {
    LogRow(card.customer, card.number, Name(TierCoded(m.current)), kind)
  }

  function DropLogs(card: Card, m: Meta): seq<LogRow> {
    match Dropped(card, m)
    case Some(kind) => [LogOf(card, m, kind)]
    case None => []
  }

  function MoveLogs(card: Card, m: Meta): seq<LogRow> {
    if !LevelDiffers(card, m) || Aborts(card, m) then []
    else if Level(TierCoded(m.current)) > Level(TierNamed(card.membershipType)) then [LogOf(card, m, UPGRADE)]
    else [LogOf(card, m, DOWNGRADE)]
  }

  function Logs(card: Card, m: Meta): seq<LogRow> {
    DropLogs(card, m) + MoveLogs(card, m)
  }

  lemma LowerShort(code: string)
    ensures WellFormed(code) ==> ShortForm(TierCoded(code)) == code
    ensures forall t :: Lower(ShortForm(t)) == match t
      case Associate => "a" case Silver => "s" case Gold => "g" case Platinum => "p" case Diamond => "d"
    ensures Lower(code) == "a" ==> code == "a" || code == "A"
    ensures Lower("a") == "a"
    ensures TierNamed(Name(TierCoded(code))) == TierCoded(code)
  {
    forall t
      ensures Lower(ShortForm(t)) == match t
        case Associate => "a" case Silver => "s" case Gold => "g" case Platinum => "p" case Diamond => "d"
    {
      assert |ShortForm(t)| == 1;
    }
    if Lower(code) == "a" {
      assert |code| == 1 && LowerChar(code[0]) == Lower(code)[0];
      assert code == [code[0]];
    }
  }

  /** A card whose type reads as the lowest level, with a code that is neither a known one nor "a". */
  predicate Unreadable(card: Card, m: Meta) {
    !WellFormed(m.current) && m.current != "a" && TierNamed(card.membershipType) == Associate
  }

  /** The early return is reached exactly on such cards. */
  lemma AbortsExactly(card: Card, m: Meta)
    ensures Aborts(card, m) <==> Unreadable(card, m)
  {
    LowerShort(m.current);
  }

  // The levels from the lowest up: how a card names them and how the loyalty database codes them.

  const NAMES: seq<string> := ["Associate", "Silver", "Gold", "Platinum", "Diamond"]
  const CODES: seq<string> := ["A", "S", "G", "P", "D"]
  const SMALL_CODES: seq<string> := ["a", "s", "g", "p", "d"]

  /** The card is on level i; a type that is no level's name counts as the lowest. */
  predicate OnLevel(card: Card, i: nat) {
    i < 5 && if i == 0 then card.membershipType !in NAMES[1..] else card.membershipType == NAMES[i]
  }

  lemma ListsOfLevels()
    ensures NAMES[0] == "Associate" && NAMES[1] == "Silver" && NAMES[2] == "Gold"
    ensures NAMES[3] == "Platinum" && NAMES[4] == "Diamond"
    ensures CODES[0] == "A" && CODES[1] == "S" && CODES[2] == "G" && CODES[3] == "P" && CODES[4] == "D"
    ensures SMALL_CODES[0] == "a" && SMALL_CODES[1] == "s" && SMALL_CODES[2] == "g"
    ensures SMALL_CODES[3] == "p" && SMALL_CODES[4] == "d"
    ensures forall n :: n in NAMES[1..] <==> n == "Silver" || n == "Gold" || n == "Platinum" || n == "Diamond"
    ensures forall n :: n in CODES <==> n == "A" || n == "S" || n == "G" || n == "P" || n == "D"
  {
  }

  function AtLevel(i: nat): Tier
    requires i < 5
  {
    [Associate, Silver, Gold, Platinum, Diamond][i]
  }

  lemma ReadAtLevel(card: Card, i: nat)
    requires OnLevel(card, i)
    ensures TierNamed(card.membershipType) == AtLevel(i) && Name(AtLevel(i)) == NAMES[i]
    ensures ShortForm(AtLevel(i)) == CODES[i] && Level(AtLevel(i)) == i + 1 && TierCoded(CODES[i]) == AtLevel(i)
    ensures Lower(CODES[i]) == SMALL_CODES[i]
  {
    ListsOfLevels();
    LowerShort(CODES[i]);
  }

  lemma CodeAtLevel(j: nat)
    requires j < 5
    ensures TierCoded(CODES[j]) == AtLevel(j) && Name(AtLevel(j)) == NAMES[j] && Level(AtLevel(j)) == j + 1
    ensures Lower(CODES[j]) == SMALL_CODES[j] && WellFormed(CODES[j])
  {
    ListsOfLevels();
    LowerShort(CODES[j]);
  }

  lemma LowerReads(code: string)
    ensures Lower(code) == "x" <==> code == "x" || code == "X"
    ensures Lower(code) == "s" <==> code == "s" || code == "S"
    ensures forall i :: 0 <= i < 5 ==> (Lower(code) == SMALL_CODES[i] <==> code == SMALL_CODES[i] || code == CODES[i])
  {
    ListsOfLevels();
    if |code| == 1 {
      assert Lower(code)[0] == LowerChar(code[0]);
      assert code == [code[0]] && Lower(code) == [LowerChar(code[0])];
    } else {
      assert |Lower(code)| != 1;
    }
    forall i | 0 <= i < 5
      ensures Lower(code) == SMALL_CODES[i] <==> code == SMALL_CODES[i] || code == CODES[i]
    {
    }
  }

  /**
   * A card on level i with the code of level j ends on level j under its name. An upgrade is logged exactly
   * when j is above i and a downgrade exactly when it is below, with the new name.
   */
  lemma KnownCode(card: Card, m: Meta, i: nat, j: nat)
    requires OnLevel(card, i) && j < 5 && m.current == CODES[j]
    ensures var after := After(card, m);
      && OnLevel(after, j)
      && (if i == j then after.membershipType == card.membershipType && after.previous == card.previous
          else after.membershipType == NAMES[j] && after.previous == Some(card.membershipType))
    ensures LogRow(card.customer, card.number, NAMES[j], UPGRADE) in Logs(card, m) <==> i < j
    ensures LogRow(card.customer, card.number, NAMES[j], DOWNGRADE) in Logs(card, m) <==> j < i
  {
    ListsOfLevels();
    ReadAtLevel(card, i);
    CodeAtLevel(j);
    hide Lower, ShortForm, Level, Name, TierNamed, TierCoded, CardStatus;
  }

  /** Any other code leaves a card alone that is on the level it spells in small letters, and makes others Associate. */
  lemma UnknownCode(card: Card, m: Meta, i: nat)
    requires OnLevel(card, i) && m.current !in CODES
    ensures After(card, m).membershipType == if m.current == SMALL_CODES[i] then card.membershipType else "Associate"
    ensures LogRow(card.customer, card.number, "Associate", DOWNGRADE) in Logs(card, m) <==>
      i > 0 && m.current != SMALL_CODES[i]
    ensures forall row :: row in Logs(card, m) ==> row.kind != UPGRADE
  {
    ListsOfLevels();
    ReadAtLevel(card, i);
    LowerReads(m.current);
    assert m.current != CODES[i] by {
      assert CODES[i] in CODES;
    }
    assert TierCoded(m.current) == Associate && Name(Associate) == "Associate";
    hide Lower, ShortForm, Name, TierNamed, TierCoded, CardStatus;
  }

  /**
   * The status a card ends with. It is written when the card was active and its record says X or S, or when
   * the code is not that of the card's level; then X is Cancelled, S is Suspended and all else Active.
   */
  lemma StatusWritten(card: Card, m: Meta, i: nat)
    requires OnLevel(card, i)
    ensures var dropped := card.status == "Active" && m.cardStatus in {"X", "x", "S", "s"};
      After(card, m).status ==
        if !dropped && (m.current == CODES[i] || m.current == SMALL_CODES[i]) then card.status
        else if m.cardStatus in {"X", "x"} then "Cancelled"
        else if m.cardStatus in {"S", "s"} then "Suspended"
        else "Active"
    ensures After(card, m).changed <==>
      card.changed || (card.status == "Active" && m.cardStatus in {"X", "x", "S", "s"})
      || !(m.current == CODES[i] || m.current == SMALL_CODES[i])
  {
    ReadAtLevel(card, i);
    LowerReads(m.current);
    LowerReads(m.cardStatus);
    StatusReads(m.cardStatus);
    hide Lower, ShortForm, Name, TierNamed, TierCoded, CardStatus;
  }

  lemma StatusReads(code: string)
    ensures CardStatus(code) ==
      if Lower(code) == "x" then "Cancelled" else if Lower(code) == "s" then "Suspended" else "Active"
  {
  }

  /** An active card is logged as cancelled exactly when its record says X, as suspended exactly when it says S. */
  lemma DropsLogged(card: Card, m: Meta, row: LogRow)
    ensures row in Logs(card, m) && row.kind == CANCELLED ==> card.status == "Active" && m.cardStatus in {"X", "x"}
    ensures row in Logs(card, m) && row.kind == SUSPENDED ==> card.status == "Active" && m.cardStatus in {"S", "s"}
    ensures row in Logs(card, m) ==> row.customer == card.customer && row.number == card.number
    ensures card.status == "Active" && m.cardStatus in {"X", "x"} ==>
      exists r :: r in Logs(card, m) && r.kind == CANCELLED
    ensures card.status == "Active" && m.cardStatus in {"S", "s"} ==>
      exists r :: r in Logs(card, m) && r.kind == SUSPENDED
  {
    LowerReads(m.cardStatus);
    hide Lower, ShortForm, Level, Name, TierNamed, TierCoded, CardStatus;
    if Dropped(card, m).Some? {
      assert LogOf(card, m, Dropped(card, m).value) in Logs(card, m);
    }
  }

  /** With a known code the card ends at the level the loyalty database gives. */
  lemma LevelReached(card: Card, m: Meta)
    requires WellFormed(m.current)
    ensures Level(TierNamed(After(card, m).membershipType)) == Level(TierCoded(m.current))
  {
    LowerShort(m.current);
  }

  /** No card stays active when the loyalty database says cancelled or suspended. */
  lemma NotLeftActive(card: Card, m: Meta)
    ensures After(card, m).status == "Active" ==> Lower(m.cardStatus) != "x" && Lower(m.cardStatus) != "s"
  {
  }

  /** Whatever the code, an upgrade is logged exactly when the level rises and a downgrade exactly when it falls. */
  lemma MovesLogged(card: Card, m: Meta)
    ensures LogOf(card, m, UPGRADE) in Logs(card, m) <==>
      Level(TierNamed(After(card, m).membershipType)) > Level(TierNamed(card.membershipType))
    ensures LogOf(card, m, DOWNGRADE) in Logs(card, m) <==>
      Level(TierNamed(After(card, m).membershipType)) < Level(TierNamed(card.membershipType))
  {
    LowerShort(m.current);
  }

  /** Whatever changes on a card is flagged, and a changed type leaves the old one behind. */
  lemma ChangeIsTraceable(card: Card, m: Meta)
    ensures After(card, m) != card ==> After(card, m).changed
    ensures After(card, m).membershipType != card.membershipType ==>
      After(card, m).previous == Some(card.membershipType)
    ensures After(card, m).(membershipType := card.membershipType, previous := card.previous, status := card.status,
                            changed := card.changed) == card
  {
  }

  /** Nothing is left to do for the card. */
  predicate Settled(card: Card, m: Meta) {
    Dropped(card, m).None? && !LevelDiffers(card, m)
  }

  predicate Settleable(card: Card, m: Meta) {
    WellFormed(m.current) || m.current == "a" || !LevelDiffers(card, m)
  }

  /** One pass settles a card exactly when the code is a known one or "a", or already matched its level. */
  lemma OnePassSettles(card: Card, m: Meta)
    ensures Settled(After(card, m), m) <==> Settleable(card, m)
  {
    LowerShort(m.current);
    NotLeftActive(card, m);
  }

  lemma SettledStays(card: Card, m: Meta)
    requires Settled(card, m)
    ensures After(card, m) == card && Logs(card, m) == []
  {
  }

  // ---------------------------------------------------------------------------------------
  // All cards.
  // ---------------------------------------------------------------------------------------

  type Loyalty = map<string, Meta>

  function Reconciled(card: Card, loyalty: Loyalty): Card {
    if card.number in loyalty then After(card, loyalty[card.number]) else card
  }

  function LogsOf(card: Card, loyalty: Loyalty): seq<LogRow> {
    if card.number in loyalty then Logs(card, loyalty[card.number]) else []
  }

  predicate Stops(card: Card, loyalty: Loyalty) {
    card.number in loyalty && Aborts(card, loyalty[card.number])
  }

  /** The first n cards reconciled, the rest as they were. */
  function Pass(cards: seq<Card>, loyalty: Loyalty, n: nat): seq<Card>
    requires n <= |cards|
  {
    seq(|cards|, i requires 0 <= i < |cards| => if i < n then Reconciled(cards[i], loyalty) else cards[i])
  }

  function PassLogs(cards: seq<Card>, loyalty: Loyalty, n: nat): seq<LogRow>
    requires n <= |cards|
  {
    if n == 0 then [] else PassLogs(cards, loyalty, n - 1) + LogsOf(cards[n - 1], loyalty)
  }

  /** Where a run stops: after the first card that makes it return, or after the last card. */
  function Reach(cards: seq<Card>, loyalty: Loyalty): nat
    ensures Reach(cards, loyalty) <= |cards|
  {
    if cards == [] then 0
    else if Stops(cards[0], loyalty) then 1
    else 1 + Reach(cards[1..], loyalty)
  }

  predicate AnyStops(cards: seq<Card>, loyalty: Loyalty) {
    exists c :: c in cards && Stops(c, loyalty)
  }

  lemma {:induction false} ReachIs(cards: seq<Card>, loyalty: Loyalty, n: nat)
    requires n <= |cards|
    requires forall i :: 0 <= i < n ==> !Stops(cards[i], loyalty)
    requires n < |cards| ==> Stops(cards[n], loyalty)
    ensures Reach(cards, loyalty) == if n < |cards| then n + 1 else n
    ensures AnyStops(cards, loyalty) <==> n < |cards|
  {
    if cards != [] && n > 0 {
      ReachIs(cards[1..], loyalty, n - 1);
      assert forall c :: c in cards <==> c == cards[0] || c in cards[1..];
    }
  }

  /** A run returns early exactly when one of the cards it is given is unreadable. */
  lemma RunStopsExactly(cards: seq<Card>, loyalty: Loyalty)
    ensures AnyStops(cards, loyalty) <==>
      exists c :: c in cards && c.number in loyalty && Unreadable(c, loyalty[c.number])
  {
    hide Aborts, Unreadable;
    forall c: Card | c.number in loyalty
      ensures Stops(c, loyalty) <==> Unreadable(c, loyalty[c.number])
    {
      AbortsExactly(c, loyalty[c.number]);
    }
  }

  /**
   * With known codes a run never returns early, leaves every card with a loyalty record at its level
   * and none active that should not be, and a second run neither changes a card nor logs anything.
   */
  lemma RunConverges(cards: seq<Card>, loyalty: Loyalty)
    requires forall k :: k in loyalty ==> WellFormed(loyalty[k].current)
    ensures !AnyStops(cards, loyalty) && Reach(cards, loyalty) == |cards|
    ensures var after := Pass(cards, loyalty, |cards|);
      && (forall c :: c in after ==> InLine(c, loyalty))
      && Pass(after, loyalty, |cards|) == after
      && PassLogs(after, loyalty, |cards|) == []
  {
    hide Stops, Reconciled, LogsOf, TierNamed, TierCoded, CardStatus, WellFormed;
    var after := Pass(cards, loyalty, |cards|);
    forall i | 0 <= i < |cards|
      ensures !Stops(cards[i], loyalty) && InLine(after[i], loyalty)
      ensures Reconciled(after[i], loyalty) == after[i] && LogsOf(after[i], loyalty) == []
    {
      CardConverges(cards[i], loyalty);
    }
    ReachIs(cards, loyalty, |cards|);
    NothingLogged(after, loyalty, |cards|);
  }

  /** A card one pass does not settle makes the next run return early. */
  lemma CardAgain(card: Card, loyalty: Loyalty)
    ensures var c := Reconciled(card, loyalty);
      if card.number in loyalty && !Settleable(card, loyalty[card.number]) then Stops(c, loyalty)
      else !Stops(c, loyalty) && Reconciled(c, loyalty) == c && LogsOf(c, loyalty) == []
  {
    if card.number in loyalty {
      var m := loyalty[card.number];
      OnePassSettles(card, m);
      LowerShort(m.current);
      if Settleable(card, m) {
        SettledStays(After(card, m), m);
      } else {
        AbortsExactly(After(card, m), m);
      }
    }
  }

  /**
   * After a run over all cards the next one comes to its end exactly when every card with a record could
   * be settled, and then it changes and logs nothing.
   */
  lemma NextRunIdleExactly(cards: seq<Card>, loyalty: Loyalty)
    ensures var after := Pass(cards, loyalty, |cards|);
      && (!AnyStops(after, loyalty) <==>
            forall c :: c in cards && c.number in loyalty ==> Settleable(c, loyalty[c.number]))
      && (!AnyStops(after, loyalty) ==>
            Pass(after, loyalty, |cards|) == after && PassLogs(after, loyalty, |cards|) == [])
  {
    hide Stops, Reconciled, LogsOf, Settleable;
    var after := Pass(cards, loyalty, |cards|);
    forall i | 0 <= i < |cards|
      ensures after[i] == Reconciled(cards[i], loyalty) && cards[i] in cards && after[i] in after
    {
      CardAgain(cards[i], loyalty);
    }
    forall c {
      CardAgain(c, loyalty);
    }
    if !AnyStops(after, loyalty) {
      NothingLogged(after, loyalty, |cards|);
    }
  }

  /** The card has the level of its loyalty record, if it has one, and is active only if the record says so. */
  ghost predicate InLine(c: Card, loyalty: Loyalty) {
    c.number in loyalty ==>
      && Level(TierNamed(c.membershipType)) == Level(TierCoded(loyalty[c.number].current))
      && (c.status == "Active" ==> CardStatus(loyalty[c.number].cardStatus) == "Active")
  }

  lemma CardConverges(card: Card, loyalty: Loyalty)
    requires card.number in loyalty ==> WellFormed(loyalty[card.number].current)
    ensures !Stops(card, loyalty)
    ensures var c := Reconciled(card, loyalty);
      InLine(c, loyalty) && Reconciled(c, loyalty) == c && LogsOf(c, loyalty) == []
  {
    if card.number in loyalty {
      var m := loyalty[card.number];
      AbortsExactly(card, m);
      LevelReached(card, m);
      NotLeftActive(card, m);
      OnePassSettles(card, m);
      SettledStays(After(card, m), m);
    }
  }

  lemma {:induction false} NothingLogged(cards: seq<Card>, loyalty: Loyalty, n: nat)
    requires n <= |cards|
    requires forall i :: 0 <= i < |cards| ==> LogsOf(cards[i], loyalty) == []
    ensures PassLogs(cards, loyalty, n) == []
  {
    hide LogsOf;
    if n > 0 {
      NothingLogged(cards, loyalty, n - 1);
    }
  }

  // ---------------------------------------------------------------------------------------
  // The CustomerCard table and the log.
  // ---------------------------------------------------------------------------------------

  /** The customers of the log rows of one kind, in order: who is to be told what. */
  function Notices(logs: seq<LogRow>, kind: Kind): seq<nat> {
    if logs == [] then []
    else
      var last, before := logs[|logs| - 1], Notices(logs[..|logs| - 1], kind);
      if last.kind == kind then before + [last.customer] else before
  }

  lemma NoticesAppended(logs: seq<LogRow>, row: LogRow, kind: Kind)
    ensures Notices(logs + [row], kind) ==
      if row.kind == kind then Notices(logs, kind) + [row.customer] else Notices(logs, kind)
  {
    assert (logs + [row])[..|logs|] == logs;
  }

  /** What a card deserves to be told, read off the card before and after and the loyalty record. */
  predicate Deserves(card: Card, loyalty: Loyalty, kind: Kind) {
    card.number in loyalty &&
    var m, before := loyalty[card.number], Level(TierNamed(card.membershipType));
    var after := Level(TierNamed(Reconciled(card, loyalty).membershipType));
    match kind
    case CANCELLED => card.status == "Active" && Lower(m.cardStatus) == "x"
    case SUSPENDED => card.status == "Active" && Lower(m.cardStatus) == "s"
    case UPGRADE => after > before
    case DOWNGRADE => after < before
  }

  /** The customers of the first n cards that deserve a notice, in the order of the cards. */
  function Deserving(cards: seq<Card>, loyalty: Loyalty, n: nat, kind: Kind): seq<nat>
    requires n <= |cards|
  {
    if n == 0 then []
    else
      var before := Deserving(cards, loyalty, n - 1, kind);
      if Deserves(cards[n - 1], loyalty, kind) then before + [cards[n - 1].customer] else before
  }

  lemma {:induction false} NoticesConcat(a: seq<LogRow>, b: seq<LogRow>, kind: Kind)
    ensures Notices(a + b, kind) == Notices(a, kind) + Notices(b, kind)
  {
    if b == [] {
      assert a + b == a;
    } else {
      var last := b[|b| - 1];
      assert a + b == (a + b[..|b| - 1]) + [last] && b == b[..|b| - 1] + [last];
      NoticesConcat(a, b[..|b| - 1], kind);
      NoticesAppended(a + b[..|b| - 1], last, kind);
    }
  }

  lemma MovesAre(card: Card, m: Meta)
    ensures var before, after := Level(TierNamed(card.membershipType)), Level(TierNamed(After(card, m).membershipType));
      MoveLogs(card, m) ==
        if after > before then [LogOf(card, m, UPGRADE)] else if after < before then [LogOf(card, m, DOWNGRADE)] else []
  {
    LowerShort(m.current);
  }

  lemma CardToldOnce(card: Card, loyalty: Loyalty, kind: Kind)
    ensures Notices(LogsOf(card, loyalty), kind) == if Deserves(card, loyalty, kind) then [card.customer] else []
  {
    if card.number in loyalty {
      var m := loyalty[card.number];
      MovesAre(card, m);
      hide Lower, TierNamed, TierCoded, Level, Name, After, MoveLogs, Notices;
      NoticesConcat(DropLogs(card, m), MoveLogs(card, m), kind);
      forall k {
        NoticeOfOne(LogOf(card, m, k), kind);
      }
    }
    NoticeOfOne(LogRow(0, "", "", kind), kind);
  }

  lemma NoticeOfOne(row: LogRow, kind: Kind)
    ensures Notices([row], kind) == if row.kind == kind then [row.customer] else []
    ensures Notices([], kind) == []
  {
    assert [row][..0] == [];
  }

  /** In a run, a customer is logged once for each of its cards that deserves it: dropped, risen or fallen. */
  lemma {:induction false} LoggedAsDeserved(cards: seq<Card>, loyalty: Loyalty, n: nat, kind: Kind)
    requires n <= |cards|
    ensures Notices(PassLogs(cards, loyalty, n), kind) == Deserving(cards, loyalty, n, kind)
  {
    hide LogsOf, Deserves;
    if n > 0 {
      LoggedAsDeserved(cards, loyalty, n - 1, kind);
      NoticesConcat(PassLogs(cards, loyalty, n - 1), LogsOf(cards[n - 1], loyalty), kind);
      CardToldOnce(cards[n - 1], loyalty, kind);
    }
  }

  function HasIdx(idx: nat): Card -> bool {
    (c: Card) => c.idx == idx
  }

  ghost predicate DistinctIdx(cards: seq<Card>) {
    forall i, j :: 0 <= i < j < |cards| ==> cards[i].idx != cards[j].idx
  }

  lemma OverlayOne(cards: seq<Card>, i: nat, set_: Card -> Card)
    requires i < |cards| && DistinctIdx(cards)
    ensures Overlay(cards, HasIdx(cards[i].idx), set_) == cards[i := set_(cards[i])]
  {
    OverlayAt(cards, HasIdx(cards[i].idx), set_);
  }

  lemma PassStart(cards: seq<Card>, loyalty: Loyalty)
    ensures Pass(cards, loyalty, 0) == cards && PassLogs(cards, loyalty, 0) == []
  {
  }

  lemma PassStep(cards: seq<Card>, loyalty: Loyalty, n: nat)
    requires n < |cards|
    ensures |Pass(cards, loyalty, n)| == |cards| && Pass(cards, loyalty, n)[n] == cards[n]
    ensures cards[n].number in loyalty ==>
      && Pass(cards, loyalty, n + 1) == Pass(cards, loyalty, n)[n := After(cards[n], loyalty[cards[n].number])]
      && PassLogs(cards, loyalty, n + 1) == PassLogs(cards, loyalty, n) + Logs(cards[n], loyalty[cards[n].number])
    ensures cards[n].number !in loyalty ==>
      && Pass(cards, loyalty, n + 1) == Pass(cards, loyalty, n)
      && PassLogs(cards, loyalty, n + 1) == PassLogs(cards, loyalty, n)
  {
    hide After, Logs;
    assert PassLogs(cards, loyalty, n) + [] == PassLogs(cards, loyalty, n);
  }

  lemma PassKeepsIdx(cards: seq<Card>, loyalty: Loyalty, n: nat)
    requires n <= |cards| && DistinctIdx(cards)
    ensures DistinctIdx(Pass(cards, loyalty, n))
  {
    assert forall i :: 0 <= i < |cards| ==> Pass(cards, loyalty, n)[i].idx == cards[i].idx;
  }

  /** The four lists a run collects, by kind. */
  datatype Lists = Lists(cancelled: seq<nat>, suspended: seq<nat>, upgraded: seq<nat>, downgraded: seq<nat>)
  {
    ghost predicate Match(logs: seq<LogRow>) {
      && cancelled == Notices(logs, CANCELLED)
      && suspended == Notices(logs, SUSPENDED)
      && upgraded == Notices(logs, UPGRADE)
      && downgraded == Notices(logs, DOWNGRADE)
    }
  }

  lemma NoNotices()
    ensures Lists([], [], [], []).Match([])
  {
  }

  class MembershipService {
    var cards: seq<Row<Card>>
    var logs: seq<LogRow>

    /** A customer is put on the list of its kind whenever a row of that kind is logged. */
    method Log(lists: Lists, row: LogRow, ghost written: seq<LogRow>) returns (longer: Lists)
      requires lists.Match(written)
      modifies this`logs
      ensures logs == old(logs) + [row]
      ensures longer.Match(written + [row])
    {
      forall kind {
        NoticesAppended(written, row, kind);
      }
      logs := logs + [row];
      match row.kind
      case CANCELLED => longer := lists.(cancelled := lists.cancelled + [row.customer]);
      case SUSPENDED => longer := lists.(suspended := lists.suspended + [row.customer]);
      case UPGRADE => longer := lists.(upgraded := lists.upgraded + [row.customer]);
      case DOWNGRADE => longer := lists.(downgraded := lists.downgraded + [row.customer]);
    }

    /** Writes one visible card. */
    method UpdateCard(i: nat, idx: nat, set_: Card -> Card)
      requires i < |Live(cards)| && Live(cards)[i].idx == idx && DistinctIdx(Live(cards))
      modifies this`cards
      ensures Live(cards) == old(Live(cards))[i := set_(old(Live(cards))[i])]
    {
      LiveUpdate(cards, HasIdx(idx), set_);
      OverlayOne(Live(cards), i, set_);
      cards := UpdateLive(cards, HasIdx(idx), set_);
    }

    /** One card: `customer` is the card as read at the start, and the table still holds it at i. */
    method CheckCard(i: nat, customer: Card, m: Meta, lists: Lists, ghost written: seq<LogRow>)
      returns (aborted: bool, longer: Lists)
      requires i < |Live(cards)| && Live(cards)[i] == customer && DistinctIdx(Live(cards))
      requires lists.Match(written)
      modifies this
      ensures aborted == Aborts(customer, m)
      ensures Live(cards) == old(Live(cards))[i := After(customer, m)]
      ensures logs == old(logs) + Logs(customer, m)
      ensures longer.Match(written + Logs(customer, m))
    {
      hide Lower, CardStatus, Lists.Match, TierNamed, TierCoded, ShortForm, Level, Name, Live, Notices;
      longer := lists;
      assert written + [] == written;
      if customer.status == "Active" && Lower(m.cardStatus) == "x" {
        UpdateCard(i, customer.idx, SetDropped(m));
        longer := Log(longer, LogOf(customer, m, CANCELLED), written);
      }
      if customer.status == "Active" && Lower(m.cardStatus) == "s" {
        UpdateCard(i, customer.idx, SetDropped(m));
        longer := Log(longer, LogOf(customer, m, SUSPENDED), written);
      }
      ghost var all := written + DropLogs(customer, m);
      assert logs == old(logs) + DropLogs(customer, m) && longer.Match(all);
      if Lower(m.current) != Lower(ShortForm(TierNamed(customer.membershipType))) {
        UpdateCard(i, customer.idx, SetLevel(m, customer.membershipType));
        var currentLevel := Level(TierNamed(customer.membershipType));
        var newLevel := Level(TierCoded(m.current));
        if newLevel == currentLevel {
          assert all == written + Logs(customer, m);
          return true, longer;
        }
        if newLevel > currentLevel {
          longer := Log(longer, LogOf(customer, m, UPGRADE), all);
          assert all + [LogOf(customer, m, UPGRADE)] == written + Logs(customer, m);
        } else {
          longer := Log(longer, LogOf(customer, m, DOWNGRADE), all);
          assert all + [LogOf(customer, m, DOWNGRADE)] == written + Logs(customer, m);
        }
      } else {
        assert all == written + Logs(customer, m);
      }
      aborted := false;
    }

    /**
     * The job. Cards are reconciled up to where the run stops; the lists are sent only by a run that
     * comes to the end, and then they are exactly the rows logged.
     */
    method CheckMembershipChanged(loyalty: Loyalty) returns (sent: Option<Lists>)
      requires DistinctIdx(Live(cards))
      modifies this
      ensures var live := old(Live(cards));
        var n := Reach(live, loyalty);
        && Live(cards) == Pass(live, loyalty, n)
        && logs == old(logs) + PassLogs(live, loyalty, n)
        && (sent.None? <==> AnyStops(live, loyalty))
        && (sent.Some? ==> sent.value.Match(PassLogs(live, loyalty, n)))
    {
      hide After, Logs, Aborts, DistinctIdx, Lists.Match, Pass, PassLogs, Live;
      var all := Live(cards);
      var lists := Lists([], [], [], []);
      NoNotices();
      PassStart(all, loyalty);
      for i := 0 to |all|
        invariant Live(cards) == Pass(all, loyalty, i)
        invariant logs == old(logs) + PassLogs(all, loyalty, i)
        invariant lists.Match(PassLogs(all, loyalty, i))
        invariant forall k :: 0 <= k < i ==> !Stops(all[k], loyalty)
      {
        PassStep(all, loyalty, i);
        if all[i].number in loyalty {
          var aborted;
          PassKeepsIdx(all, loyalty, i);
          aborted, lists := CheckCard(i, all[i], loyalty[all[i].number], lists, PassLogs(all, loyalty, i));
          if aborted {
            ReachIs(all, loyalty, i);
            return None;
          }
        }
      }
      ReachIs(all, loyalty, |all|);
      sent := Some(lists);
    }
  }
}
