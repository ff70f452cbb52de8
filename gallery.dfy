/**
 * The two photo galleries ("Фото локации" for the out-of-town camp and
 * "Экскурсия по центру" for the centre). Each is one process-wide object:
 * a fixed list of photo paths and a cursor that the "previous" and "next"
 * buttons move cyclically. Every viewer shares the one cursor.
 */
module Gallery {
  import opened Text

  /** `(i + 1) % n` of the `next_*` handlers; the operands are never
      negative, so JavaScript's `%` and Dafny's agree. */
  function NextIndex(i: int, n: int): (r: int)
    requires 0 <= i < n
    ensures 0 <= r < n
    ensures r == if i == n - 1 then 0 else i + 1
  {
    (i + 1) % n
  }

  /** `(i - 1 + n) % n` of the `prev_*` handlers. */
  function PrevIndex(i: int, n: int): (r: int)
    requires 0 <= i < n
    ensures 0 <= r < n
    ensures r == if i == 0 then n - 1 else i - 1
  {
    (i - 1 + n) % n
  }

  lemma PrevUndoesNext(i: int, n: int)
    requires 0 <= i < n
    ensures PrevIndex(NextIndex(i, n), n) == i
    ensures NextIndex(PrevIndex(i, n), n) == i
  {
  }

  datatype Move = Next | Prev

  function Step(i: int, m: Move, n: int): (r: int)
    requires 0 <= i < n
    ensures 0 <= r < n
  {
    match m
    case Next => NextIndex(i, n)
    case Prev => PrevIndex(i, n)
  }

  /** The cursor after a run of button presses, applied in order. */
  function Run(i: int, moves: seq<Move>, n: int): (r: int)
    requires 0 <= i < n
    ensures 0 <= r < n
    decreases |moves|
  {
    if |moves| == 0 then i else Run(Step(i, moves[0], n), moves[1..], n)
  }

  /** Number of "next" presses minus number of "previous" presses. */
  function Net(moves: seq<Move>): int
    decreases |moves|
  {
    if |moves| == 0 then 0 else (if moves[0] == Next then 1 else -1) + Net(moves[1..])
  }

  lemma ModStep(x: int, n: int)
    requires n >= 1
    ensures NextIndex(x % n, n) == (x + 1) % n
    ensures PrevIndex(x % n, n) == (x - 1) % n
  {
    var q := x / n;
    var r := x % n;
    assert x == q * n + r;
    if r == n - 1 {
      assert x + 1 == (q + 1) * n;
      ModOfMultiple(q + 1, n);
    } else {
      assert x + 1 == q * n + (r + 1);
      ModOfSum(q, n, r + 1);
    }
    if r == 0 {
      assert x - 1 == (q - 1) * n + (n - 1);
      ModOfSum(q - 1, n, n - 1);
    } else {
      assert x - 1 == q * n + (r - 1);
      ModOfSum(q, n, r - 1);
    }
  }

  lemma ModOfMultiple(q: int, n: int)
    requires n >= 1
    ensures (q * n) % n == 0
  {
    ModOfSum(q, n, 0);
  }

  lemma ModOfSum(q: int, n: int, r: int)
    requires n >= 1 && 0 <= r < n
    ensures (q * n + r) % n == r
  {
    var x := q * n + r;
    var d := x / n;
    assert x == d * n + x % n;
    assert (q - d) * n == x % n - r;
    MulBounds(q - d, n);
  }

  lemma MulBounds(k: int, n: int)
    requires n >= 1
    ensures k >= 1 ==> k * n >= n
    ensures k <= -1 ==> k * n <= -n
  {
  }

  /** Whatever the presses, the cursor moves by their net count, modulo the
      number of photos. */
  lemma {:induction false} RunIsNetShift(i: int, moves: seq<Move>, n: int)
    requires 0 <= i < n
    ensures Run(i, moves, n) == (i + Net(moves)) % n
    decreases |moves|
  {
    if |moves| == 0 {
      ModOfSum(0, n, i);
    } else {
      var j := Step(i, moves[0], n);
      RunIsNetShift(j, moves[1..], n);
      ModOfSum(0, n, i);
      ModStep(i, n);
      var d := if moves[0] == Next then 1 else -1;
      assert j == (i + d) % n;
      ShiftTwice(i + d, Net(moves[1..]), n);
    }
  }

  lemma ShiftTwice(x: int, d: int, n: int)
    requires n >= 1
    ensures (x % n + d) % n == (x + d) % n
  {
    var q := x / n;
    assert x == q * n + x % n;
    var y := x % n + d;
    var e := y / n;
    assert y == e * n + y % n;
    assert x + d == (q + e) * n + y % n;
    ModOfSum(q + e, n, y % n);
  }

  /** `n` presses of "next" bring the cursor back to where it started. */
  lemma NextCycles(i: int, n: int)
    requires 0 <= i < n
    ensures Run(i, seq(n, _ => Next), n) == i
  {
    var moves := seq(n, _ => Next);
    RunIsNetShift(i, moves, n);
    NetAll(moves, Next);
    ModOfSum(1, n, i);
  }

  /** `n` presses of "previous" bring the cursor back to where it started. */
  lemma PrevCycles(i: int, n: int)
    requires 0 <= i < n
    ensures Run(i, seq(n, _ => Prev), n) == i
  {
    var moves := seq(n, _ => Prev);
    RunIsNetShift(i, moves, n);
    NetAll(moves, Prev);
    ModOfSum(-1, n, i);
  }

  lemma {:induction false} NetAll(moves: seq<Move>, m: Move)
    requires forall k :: 0 <= k < |moves| ==> moves[k] == m
    ensures Net(moves) == if m == Next then |moves| else -|moves|
    decreases |moves|
  {
    if |moves| > 0 {
      NetAll(moves[1..], m);
    }
  }

  /** The caption of a gallery photo, "Фотография k из n". */
  function Caption(k: nat, n: nat): (c: string)
    ensures OccursAt(c, "Фотография ", 0)
    ensures OccursAt(c, NatToString(k), |"Фотография "|)
    ensures |NatToString(n)| <= |c| && OccursAt(c, NatToString(n), |c| - |NatToString(n)|)
  {
    var c := "Фотография " + NatToString(k) + " из " + NatToString(n);
    assert c[..|"Фотография "|] == "Фотография ";
    assert c[|"Фотография "|..|"Фотография "| + |NatToString(k)|] == NatToString(k);
    assert c[|c| - |NatToString(n)|..] == NatToString(n);
    c
  }

  /** Different positions in one gallery never show the same caption. */
  lemma CaptionInjective(a: nat, b: nat, n: nat)
    ensures Caption(a, n) == Caption(b, n) ==> a == b
  {
    if Caption(a, n) == Caption(b, n) {
      var pre := "Фотография ";
      var post := " из " + NatToString(n);
      assert |NatToString(a)| == |NatToString(b)|;
      assert NatToString(a) == Caption(a, n)[|pre|..|pre| + |NatToString(a)|];
      assert NatToString(b) == Caption(b, n)[|pre|..|pre| + |NatToString(b)|];
      NatToStringInjective(a, b);
    }
  }

  /** A photo message with its caption and its two navigation buttons,
      identified by their callback data. */
  datatype PhotoView = PhotoView(photo: string, caption: string, prevAction: string, nextAction: string)

  class Paginator {
    const photos: seq<string>
    const prevAction: string
    const nextAction: string
    var currentIndex: int

    ghost predicate Valid()
      reads this
    {
      |photos| >= 1 && 0 <= currentIndex < |photos|
    }

    /** What a freshly rendered photo at the cursor looks like. */
    function View(): (v: PhotoView)
      reads this
      requires Valid()
      ensures v.photo == photos[currentIndex]
      ensures v.caption == Caption(currentIndex + 1, |photos|)
    {
      PhotoView(photos[currentIndex], Caption(currentIndex + 1, |photos|), prevAction, nextAction)
    }

    constructor (photos: seq<string>, prevAction: string, nextAction: string)
      requires |photos| >= 1
      ensures Valid()
      ensures this.photos == photos && this.prevAction == prevAction && this.nextAction == nextAction
      ensures currentIndex == 0
    {
      this.photos := photos;
      this.prevAction := prevAction;
      this.nextAction := nextAction;
      currentIndex := 0;
    }

    /** Opening the gallery always shows the first photo as "1 of N",
        whatever the cursor is, and leaves the cursor where it was. */
    method Open() returns (v: PhotoView)
      requires Valid()
      ensures v.photo == photos[0] && v.caption == Caption(1, |photos|)
      ensures v.prevAction == prevAction && v.nextAction == nextAction
    {
      v := PhotoView(photos[0], Caption(1, |photos|), prevAction, nextAction);
    }

    /** The "next" button. The message is edited to the new cursor's photo
        when the edit succeeds (`editOk`); a failed edit leaves the old
        message on screen but the cursor has moved all the same. */
    method ShowNext(editOk: bool) returns (edited: Option<PhotoView>)
      requires Valid()
      modifies this
      ensures Valid()
      ensures currentIndex == NextIndex(old(currentIndex), |photos|)
      ensures edited == if editOk then Some(View()) else None
    {
      currentIndex := (currentIndex + 1) % |photos|;
      edited := if editOk then Some(View()) else None;
    }

    /** The "previous" button; same rendering contract as ShowNext. */
    method ShowPrev(editOk: bool) returns (edited: Option<PhotoView>)
      requires Valid()
      modifies this
      ensures Valid()
      ensures currentIndex == PrevIndex(old(currentIndex), |photos|)
      ensures edited == if editOk then Some(View()) else None
    {
      currentIndex := (currentIndex - 1 + |photos|) % |photos|;
      edited := if editOk then Some(View()) else None;
    }
  }

  const CampPhotos: seq<string> := [
    "./assets/camp-photos/1 (1).jpg", "./assets/camp-photos/1 (2).jpg",
    "./assets/camp-photos/1 (3).jpg", "./assets/camp-photos/1 (4).jpg",
    "./assets/camp-photos/1 (5).jpg", "./assets/camp-photos/1 (6).jpg",
    "./assets/camp-photos/1 (7).jpg", "./assets/camp-photos/1 (8).jpg"]

  const ExcursionPhotos: seq<string> := [
    "./assets/excursion/2 (1).jpg", "./assets/excursion/2 (2).jpg",
    "./assets/excursion/2 (3).jpg", "./assets/excursion/2 (4).jpg",
    "./assets/excursion/2 (5).jpg"]

  /** The camp-location gallery as the bot starts it. */
  method NewCampGallery() returns (g: Paginator)
    ensures fresh(g) && g.Valid() && g.currentIndex == 0
    ensures g.photos == CampPhotos && g.prevAction == "prev_photo" && g.nextAction == "next_photo"
  {
    g := new Paginator(CampPhotos, "prev_photo", "next_photo");
  }

  /** The excursion gallery as the bot starts it. */
  method NewExcursionGallery() returns (g: Paginator)
    ensures fresh(g) && g.Valid() && g.currentIndex == 0
    ensures g.photos == ExcursionPhotos
    ensures g.prevAction == "prev_excursion_photo" && g.nextAction == "next_excursion_photo"
  {
    g := new Paginator(ExcursionPhotos, "prev_excursion_photo", "next_excursion_photo");
  }
}
