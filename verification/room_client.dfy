/** The game logic of the room page, the only place where a line or a bingo
    is decided (the server trusts the claims): the 25-cell card with its free
    centre, marking by text, the reported count, the twelve winning lines and
    the replay of marks after a reconnection. The page's cells are those the
    card grid holds. */
module RoomClient {
  import opened Base
  import opened GameRoom

  datatype Cell = Cell(text: string, marked: bool)

  /** The text of the free cell. */
  const FreeCellText: string := "COMODÍN"

  /** The index the free cell is spliced in at, and the only index that
      starts marked. */
  const Centre: nat := 12

  const GridSize: nat := 25

  /** `splice(12, 0, free)` clamps the index to the card's length. */
  function FreeCellIndex(card: seq<CardEntry>): nat {
    Min(Centre, |card|)
  }

  /** `yourCard` and the rejoin rendering: the card with the free cell
      spliced in; only the cell at index 12 starts marked. */
  function RenderCard(card: seq<CardEntry>): (cells: seq<Cell>)
    ensures |cells| == |card| + 1
    ensures var at := FreeCellIndex(card);
      && cells[at].text == FreeCellText
      && (forall i :: 0 <= i < at ==> cells[i].text == card[i].text)
      && (forall i :: at < i < |cells| ==> cells[i].text == card[i - 1].text)
    ensures forall i :: 0 <= i < |cells| ==> (cells[i].marked <==> i == Centre)
  {
    var at := FreeCellIndex(card);
    var texts := seq(|card| + 1, i requires 0 <= i <= |card| =>
                       if i < at then card[i].text else if i == at then FreeCellText else card[i - 1].text);
    seq(|card| + 1, i requires 0 <= i <= |card| => Cell(texts[i], i == Centre))
  }

  /** A full card of 24 entries gives the 25-cell grid with the marked free
      cell in the centre and one marked cell in all. */
  lemma FullCardLayout(card: seq<CardEntry>)
    requires |card| == CardSize
    ensures var cells := RenderCard(card);
      && |cells| == GridSize
      && cells[Centre] == Cell(FreeCellText, true)
      && CountMarked(cells) == 1
  {
    var cells := RenderCard(card);
    assert cells == cells[..Centre] + [cells[Centre]] + cells[Centre + 1..];
    CountMarkedBounds(cells[..Centre]);
    CountMarkedBounds(cells[Centre + 1..]);
    CountMarkedAppend(cells[..Centre] + [cells[Centre]], cells[Centre + 1..]);
    CountMarkedAppend(cells[..Centre], [cells[Centre]]);
  }

  /** A card dealt from fewer than 12 ideas gets its free cell at the end,
      and then no cell is marked at all. */
  lemma ShortCardHasNoMarkedCell(card: seq<CardEntry>)
    requires |card| < Centre
    ensures var cells := RenderCard(card);
      cells[|card|].text == FreeCellText && forall i :: 0 <= i < |cells| ==> !cells[i].marked
  {
  }

  /** `eventWasMarked`: every cell whose text is `text` becomes marked. */
  function MarkText(cells: seq<Cell>, text: string): (r: seq<Cell>)
    ensures |r| == |cells|
    ensures forall i :: 0 <= i < |cells| ==>
      && r[i].text == cells[i].text
      && (r[i].marked <==> cells[i].marked || cells[i].text == text)
  {
    seq(|cells|, i requires 0 <= i < |cells| => cells[i].(marked := cells[i].marked || cells[i].text == text))
  }

  lemma MarkTextIdempotent(cells: seq<Cell>, text: string)
    ensures MarkText(MarkText(cells, text), text) == MarkText(cells, text)
  {
  }

  /** The number of marked cells, as the page counts them. */
  function CountMarked(cells: seq<Cell>): (n: nat)
    ensures n <= |cells|
  {
    if |cells| == 0 then 0 else (if cells[0].marked then 1 else 0) + CountMarked(cells[1..])
  }

  /** The count reaches the number of cells exactly when every cell is
      marked, and is positive exactly when some cell is. */
  lemma {:induction false} CountMarkedBounds(cells: seq<Cell>)
    ensures CountMarked(cells) == |cells| <==> AllMarked(cells)
    ensures CountMarked(cells) > 0 <==> exists i :: 0 <= i < |cells| && cells[i].marked
  {
    if |cells| > 0 {
      CountMarkedBounds(cells[1..]);
      assert forall i :: 1 <= i < |cells| ==> cells[i] == cells[1..][i - 1];
      if exists i :: 0 <= i < |cells| - 1 && cells[1..][i].marked {
        var i :| 0 <= i < |cells| - 1 && cells[1..][i].marked;
        assert cells[i + 1].marked;
      }
    }
  }

  lemma {:induction false} CountMarkedAppend(a: seq<Cell>, b: seq<Cell>)
    ensures CountMarked(a + b) == CountMarked(a) + CountMarked(b)
  {
    if |a| > 0 {
      assert (a + b)[0] == a[0] && (a + b)[1..] == a[1..] + b;
      CountMarkedAppend(a[1..], b);
    } else {
      assert a + b == b;
    }
  }

  /** Marking never unmarks a cell, so the count never goes down. */
  lemma {:induction false} CountMarkedMonotone(a: seq<Cell>, b: seq<Cell>)
    requires |a| == |b|
    requires forall i :: 0 <= i < |a| && a[i].marked ==> b[i].marked
    ensures CountMarked(a) <= CountMarked(b)
  {
    if |a| > 0 {
      assert forall i :: 0 <= i < |a| - 1 ==> a[1..][i] == a[i + 1] && b[1..][i] == b[i + 1];
      CountMarkedMonotone(a[1..], b[1..]);
    }
  }

  /** The winning lines, in the page's order: five rows, five columns and
      the two diagonals. */
  const Lines: seq<seq<nat>> := [
    [0, 1, 2, 3, 4], [5, 6, 7, 8, 9], [10, 11, 12, 13, 14], [15, 16, 17, 18, 19], [20, 21, 22, 23, 24],
    [0, 5, 10, 15, 20], [1, 6, 11, 16, 21], [2, 7, 12, 17, 22], [3, 8, 13, 18, 23], [4, 9, 14, 19, 24],
    [0, 6, 12, 18, 24], [4, 8, 12, 16, 20]
  ]

  /** The geometric definition of the lines of a 5 x 5 grid. */
  function Row(r: nat): seq<nat> { seq(5, k => 5 * r + k) }
  function Column(c: nat): seq<nat> { seq(5, k => 5 * k + c) }
  function Diagonal(): seq<nat> { seq(5, k => 6 * k) }
  function AntiDiagonal(): seq<nat> { seq(5, k => 4 * k + 4) }

  /** The table is exactly the rows, the columns and the two diagonals, and
      every index in it is a cell of the grid. */
  lemma LinesAreRowsColumnsDiagonals()
    ensures |Lines| == 12
    ensures forall r :: 0 <= r < 5 ==> Lines[r] == Row(r)
    ensures forall c :: 0 <= c < 5 ==> Lines[5 + c] == Column(c)
    ensures Lines[10] == Diagonal() && Lines[11] == AntiDiagonal()
    ensures forall k, m :: 0 <= k < |Lines| && 0 <= m < |Lines[k]| ==> Lines[k][m] < GridSize
  {
    assert Lines[0] == Row(0) && Lines[1] == Row(1) && Lines[2] == Row(2) && Lines[3] == Row(3) && Lines[4] == Row(4);
    assert Lines[5] == Column(0) && Lines[6] == Column(1) && Lines[7] == Column(2);
    assert Lines[8] == Column(3) && Lines[9] == Column(4);
    assert Lines[10] == Diagonal() && Lines[11] == AntiDiagonal();
  }

  predicate AllMarked(cells: seq<Cell>) {
    forall i :: 0 <= i < |cells| ==> cells[i].marked
  }

  predicate LineComplete(cells: seq<Cell>, line: seq<nat>) {
    forall m :: 0 <= m < |line| ==> line[m] < |cells| && cells[line[m]].marked
  }

  predicate SomeLineComplete(cells: seq<Cell>) {
    exists k :: 0 <= k < |Lines| && LineComplete(cells, Lines[k])
  }

  datatype Claim = NoClaim | ClaimLine | ClaimBingo

  /** What a check emits, and the `hasCalledLine` latch after it. */
  datatype Check = Check(claim: Claim, hasCalledLine: bool)

  /** `checkWinConditions`: nothing unless the grid has 25 cells; a bingo
      claim whenever every cell is marked (not latched, and the line check is
      skipped); otherwise a line claim the first time some line is complete. */
  method CheckWinConditions(cells: seq<Cell>, hasCalledLine: bool) returns (r: Check)
    ensures r.claim == ClaimBingo <==> |cells| == GridSize && AllMarked(cells)
    ensures r.claim == ClaimLine <==>
      |cells| == GridSize && !AllMarked(cells) && !hasCalledLine && SomeLineComplete(cells)
    ensures r.hasCalledLine <==> hasCalledLine || r.claim == ClaimLine
  {
    if |cells| != GridSize {
      return Check(NoClaim, hasCalledLine);
    }
    var bingo := true;
    var i := 0;
    while i < |cells|
      invariant 0 <= i <= |cells|
      invariant bingo <==> forall j :: 0 <= j < i ==> cells[j].marked
    {
      bingo := bingo && cells[i].marked;
      i := i + 1;
    }
    if bingo {
      return Check(ClaimBingo, hasCalledLine);
    }
    if !hasCalledLine {
      var k := 0;
      while k < |Lines|
        invariant 0 <= k <= |Lines|
        invariant forall j :: 0 <= j < k ==> !LineComplete(cells, Lines[j])
      {
        if LineComplete(cells, Lines[k]) {
          return Check(ClaimLine, true);
        }
        k := k + 1;
      }
    }
    return Check(NoClaim, hasCalledLine);
  }

  /** A full card contains every line, so a bingo always carries a line. */
  lemma BingoHasLine(cells: seq<Cell>)
    requires |cells| == GridSize && AllMarked(cells)
    ensures SomeLineComplete(cells)
  {
    LinesAreRowsColumnsDiagonals();
    assert LineComplete(cells, Lines[0]);
  }

  /** What the page holds after handling one `eventWasMarked`: the cells,
      the count it reported with `updateMyCheckedCount`, and its win check. */
  datatype Reaction = Reaction(cells: seq<Cell>, count: nat, check: Check)

  /** The page's reaction to `eventWasMarked`: mark the cells, report the
      count, then check for a win. */
  method OnEventMarked(cells: seq<Cell>, hasCalledLine: bool, text: string) returns (r: Reaction)
    ensures r.cells == MarkText(cells, text)
    ensures r.count == CountMarked(r.cells) && r.count >= CountMarked(cells)
    ensures |r.cells| == GridSize ==> (r.count == GridSize <==> r.check.claim == ClaimBingo)
    ensures r.check.claim == ClaimBingo <==> |r.cells| == GridSize && AllMarked(r.cells)
    ensures r.check.claim == ClaimLine <==> |r.cells| == GridSize && !AllMarked(r.cells) && !hasCalledLine && SomeLineComplete(r.cells)
    ensures r.check.hasCalledLine <==> hasCalledLine || r.check.claim == ClaimLine
  {
    var marked := MarkText(cells, text);
    CountMarkedBounds(marked);
    CountMarkedMonotone(cells, marked);
    var check := CheckWinConditions(marked, hasCalledLine);
    r := Reaction(marked, CountMarked(marked), check);
  }

  /** A card dealt from a pool of fewer than 24 ideas renders fewer than 25
      cells, and marking never adds cells: such a page never claims anything. */
  lemma ShortPoolNeverClaims(card: seq<CardEntry>, texts: seq<string>)
    requires |card| < CardSize
    ensures |MarkAll(RenderCard(card), texts)| != GridSize
  {
    MarkAllKeepsLength(RenderCard(card), texts);
  }

  /** A game started with fewer than 24 ideas deals cards no page can win
      with: neither a line nor a bingo is ever claimed. */
  lemma ShortPoolGameNeverClaims(card: seq<CardEntry>, pool: seq<Event>, texts: seq<string>)
    requires DealtFrom(card, pool) && |pool| < CardSize
    ensures |MarkAll(RenderCard(card), texts)| != GridSize
  {
    ShortPoolNeverClaims(card, texts);
  }

  /** Marks arriving one after another. */
  function MarkAll(cells: seq<Cell>, texts: seq<string>): seq<Cell>
    decreases |texts|
  {
    if |texts| == 0 then cells else MarkAll(MarkText(cells, texts[0]), texts[1..])
  }

  lemma {:induction false} MarkAllKeepsLength(cells: seq<Cell>, texts: seq<string>)
    ensures |MarkAll(cells, texts)| == |cells|
    decreases |texts|
  {
    if |texts| > 0 {
      MarkAllKeepsLength(MarkText(cells, texts[0]), texts[1..]);
    }
  }

  /** After any sequence of marks a cell is marked exactly when it was
      marked before or its text is one of the marked texts. */
  lemma {:induction false} MarkAllCharacterization(cells: seq<Cell>, texts: seq<string>)
    ensures |MarkAll(cells, texts)| == |cells|
    ensures forall i :: 0 <= i < |cells| ==>
      && MarkAll(cells, texts)[i].text == cells[i].text
      && (MarkAll(cells, texts)[i].marked <==> cells[i].marked || cells[i].text in texts)
    decreases |texts|
  {
    if |texts| > 0 {
      var next := MarkText(cells, texts[0]);
      MarkAllCharacterization(next, texts[1..]);
      assert forall t :: t in texts <==> t == texts[0] || t in texts[1..];
    }
  }

  /** The texts of the stored marked events, in their stored order. */
  function Texts(events: seq<Event>): (r: seq<string>)
    ensures |r| == |events|
    ensures forall t :: t in r <==> exists e :: e in events && e.text == t
  {
    if |events| == 0 then []
    else
      var r := [events[0].text] + Texts(events[1..]);
      assert forall e :: e in events <==> e == events[0] || e in events[1..];
      r
  }

  /** `rejoinState`: the stored card is rendered afresh and every stored
      marked event is replayed on it. */
  function Rejoin(card: seq<CardEntry>, markedEvents: seq<Event>): seq<Cell> {
    MarkAll(RenderCard(card), Texts(markedEvents))
  }

  /** After the replay a cell is marked exactly when it is the centre cell
      or its text is the text of some marked event. */
  lemma RejoinMarks(card: seq<CardEntry>, markedEvents: seq<Event>)
    ensures var cells := Rejoin(card, markedEvents);
      && |cells| == |card| + 1
      && forall i :: 0 <= i < |cells| ==>
           && cells[i].text == RenderCard(card)[i].text
           && (cells[i].marked <==> i == Centre || exists e :: e in markedEvents && e.text == cells[i].text)
  {
    MarkAllCharacterization(RenderCard(card), Texts(markedEvents));
  }

  /** A player who reconnects sees the same card as one who stayed and saw
      every mark live: the replay depends only on which texts were marked,
      not on their order, their authors or their repetitions. */
  lemma RejoinMatchesLivePlay(card: seq<CardEntry>, markedEvents: seq<Event>, live: seq<string>)
    requires forall t :: t in live <==> exists e :: e in markedEvents && e.text == t
    ensures Rejoin(card, markedEvents) == MarkAll(RenderCard(card), live)
  {
    var cells := RenderCard(card);
    MarkAllCharacterization(cells, Texts(markedEvents));
    MarkAllCharacterization(cells, live);
    var a := Rejoin(card, markedEvents);
    var b := MarkAll(cells, live);
    assert forall i :: 0 <= i < |a| ==> a[i] == b[i];
  }

  /** On a full card the count reported after any mark is at least one:
      the free centre cell is always marked. */
  lemma CountAtLeastOne(card: seq<CardEntry>, texts: seq<string>)
    requires |card| == CardSize
    ensures CountMarked(MarkAll(RenderCard(card), texts)) >= 1
  {
    var cells := RenderCard(card);
    FullCardLayout(card);
    MarkAllCharacterization(cells, texts);
    CountMarkedMonotone(cells, MarkAll(cells, texts));
  }
}
