/**
 * The short-term memory test: non-overlapping shape placement inside the test frame, the
 * session updates of the memorisation and response phases, answer grading, and the average
 * reaction time of the result page. Every random draw is an oracle input: `draw(k)` is the
 * value the k-th call of random.randint returns (clamped into its range, so that every oracle
 * is admissible), and random.sample / random.choice / random.random are replaced by their
 * outcomes.
 */
module MemoryTest {
  import opened Wrappers
  import Stats

  const Shapes: seq<string> := ["circle", "square", "triangle", "star", "trapezoid", "pentagon", "hexagon"]
  const ColourList: seq<string> := ["blue", "red", "green", "yellow", "purple", "orange", "pink"]

  /** DEFAULT_COLOURS.get(shape, 'gray'). */
  function DefaultColour(shape: string): string
  {
    match shape
    case "circle" => "blue"
    case "square" => "red"
    case "triangle" => "green"
    case "star" => "yellow"
    case "trapezoid" => "purple"
    case "pentagon" => "pink"
    case "hexagon" => "orange"
    case _ => "gray"
  }

  /**
   * SHAPE_SIZES.get(shape, (50, 50)) as (width, height). The circle, square, triangle and star
   * entries are (50, 50), the same as the default, so only three shapes need their own case.
   */
  function ShapeSize(shape: string): (r: (int, int))
    ensures 50 <= r.0 <= 60 && 50 <= r.1 <= 60
  {
    match shape
    case "trapezoid" => (60, 50)
    case "pentagon" => (60, 60)
    case "hexagon" => (60, 60)
    case _ => (50, 50)
  }

  // ---------------------------------------------------------------------------------
  // generate_positions

  /** (top, left, bottom, right). */
  datatype Rect = Rect(top: int, left: int, bottom: int, right: int)

  /** One {'top': .., 'left': ..} entry of the returned list. */
  datatype Position = Position(top: int, left: int)

  /** random.randint(0, hi) with hi < 0 raises ValueError; with max_attempts <= 0 the fallback reads an unbound `new_rect`. */
  datatype PlacementError = EmptyRange | UnboundCandidate

  /** random.randint(0, hi), the k-th draw: the oracle's value, with one outside [0, hi] read as 0. */
  function RandInt(draw: int -> int, k: nat, hi: nat): (r: nat)
    ensures r <= hi
  {
    if 0 <= draw(k) <= hi then draw(k) else 0
  }

  /** Both randint ranges of the shape are non-empty. */
  predicate Fits(frame: int, size: (int, int))
  {
    frame - size.1 >= 0 && frame - size.0 >= 0
  }

  /** The candidate rectangle of attempt b, when the shape's first attempt used draws calls0 and calls0 + 1. */
  function Candidate(draw: int -> int, calls0: nat, frame: int, size: (int, int), b: nat): Rect
    requires Fits(frame, size)
  {
    var width, height := size.0, size.1;
    var top := RandInt(draw, calls0 + 2 * b, frame - height);
    var left := RandInt(draw, calls0 + 2 * b + 1, frame - width);
    Rect(top, left, top + height, left + width)
  }

  /** The overlap test: rectangles that only share an edge or a corner do not overlap. */
  predicate Overlaps(a: Rect, b: Rect)
  {
    !(a.bottom <= b.top || a.top >= b.bottom || a.right <= b.left || a.left >= b.right)
  }

  function Max(a: int, b: int): int { if a < b then b else a }
  function Min(a: int, b: int): int { if a < b then a else b }

  /** Overlap means the open interiors share a point: both coordinate ranges meet in more than an edge. */
  lemma OverlapsMeansCommonInterior(a: Rect, b: Rect)
    requires a.top < a.bottom && a.left < a.right && b.top < b.bottom && b.left < b.right
    ensures Overlaps(a, b) <==>
      Max(a.top, b.top) < Min(a.bottom, b.bottom) && Max(a.left, b.left) < Min(a.right, b.right)
    ensures Overlaps(a, b) <==> Overlaps(b, a)
  {
  }

  /** any(overlap(new_rect, existing) for existing in positions). */
  predicate OverlapsAny(r: Rect, placed: seq<Rect>)
  {
    exists j | 0 <= j < |placed| :: Overlaps(r, placed[j])
  }

  /**
   * The attempt, from b on, whose candidate is appended: the first one free of every placed
   * rectangle, or the last one when none is.
   */
  function Accepted(draw: int -> int, calls0: nat, frame: int, size: (int, int), placed: seq<Rect>, maxAttempts: int, b: nat): (r: nat)
    requires Fits(frame, size) && b < maxAttempts
    ensures b <= r < maxAttempts
    decreases maxAttempts - b
  {
    if !OverlapsAny(Candidate(draw, calls0, frame, size, b), placed) || b + 1 == maxAttempts then b
    else Accepted(draw, calls0, frame, size, placed, maxAttempts, b + 1)
  }

  /** Every earlier attempt overlapped; the accepted one is free unless it is the last attempt. */
  lemma {:induction false} AcceptedIsFirstFree(draw: int -> int, calls0: nat, frame: int, size: (int, int), placed: seq<Rect>, maxAttempts: int, b: nat)
    requires Fits(frame, size) && b < maxAttempts
    ensures var r := Accepted(draw, calls0, frame, size, placed, maxAttempts, b);
      && (forall c :: b <= c < r ==> OverlapsAny(Candidate(draw, calls0, frame, size, c), placed))
      && (!OverlapsAny(Candidate(draw, calls0, frame, size, r), placed) || r == maxAttempts - 1)
    decreases maxAttempts - b
  {
    if OverlapsAny(Candidate(draw, calls0, frame, size, b), placed) && b + 1 != maxAttempts {
      AcceptedIsFirstFree(draw, calls0, frame, size, placed, maxAttempts, b + 1);
    }
  }

  /** The rectangles placed for the first i shapes, and the number of randint draws they used. */
  function PlaceShapes(shapes: seq<string>, frame: int, maxAttempts: int, draw: int -> int, i: nat): Result<(seq<Rect>, nat), PlacementError>
    requires i <= |shapes|
  {
    if i == 0 then Ok(([], 0))
    else
      match PlaceShapes(shapes, frame, maxAttempts, draw, i - 1)
      case Err(e) => Err(e)
      case Ok(acc) => PlaceOne(ShapeSize(shapes[i - 1]), frame, maxAttempts, draw, acc.0, acc.1)
  }

  /** One more shape after `placed`, whose draws so far numbered `calls`. */
  function PlaceOne(size: (int, int), frame: int, maxAttempts: int, draw: int -> int, placed: seq<Rect>, calls: nat): Result<(seq<Rect>, nat), PlacementError>
  {
    if maxAttempts <= 0 then Err(UnboundCandidate)
    else if !Fits(frame, size) then Err(EmptyRange)
    else
      var a := Accepted(draw, calls, frame, size, placed, maxAttempts, 0);
      Ok((placed + [Candidate(draw, calls, frame, size, a)], calls + 2 * (a + 1)))
  }

  /** [{'top': r[0], 'left': r[1]} for r in positions]. */
  function Positions(rects: seq<Rect>): (ps: seq<Position>)
    ensures |ps| == |rects|
    ensures forall i :: 0 <= i < |rects| ==> ps[i] == Position(rects[i].top, rects[i].left)
  {
    seq(|rects|, i requires 0 <= i < |rects| => Position(rects[i].top, rects[i].left))
  }

  function GeneratePositionsSpec(shapes: seq<string>, frame: int, maxAttempts: int, draw: int -> int): Result<seq<Position>, PlacementError>
  {
    match PlaceShapes(shapes, frame, maxAttempts, draw, |shapes|)
    case Err(e) => Err(e)
    case Ok((placed, _)) => Ok(Positions(placed))
  }

  /**
   * One shape of generate_positions: up to max_attempts rounds of two randint draws, stopping
   * at the first candidate free of the placed rectangles and otherwise keeping the last one.
   */
  method PlaceShape(size: (int, int), frameSize: int, maxAttempts: int, draw: int -> int, positions: seq<Rect>, calls0: nat)
    returns (res: Result<(seq<Rect>, nat), PlacementError>)
    ensures res == PlaceOne(size, frameSize, maxAttempts, draw, positions, calls0)
  {
    if maxAttempts <= 0 {
      return Err(UnboundCandidate);
    }
    if !Fits(frameSize, size) {
      return Err(EmptyRange);
    }
    var width, height := size.0, size.1;
    var calls := calls0;
    var attempt := 0;
    var newRect := Rect(0, 0, 0, 0);
    ghost var accepted := Accepted(draw, calls0, frameSize, size, positions, maxAttempts, 0);
    while attempt < maxAttempts
      invariant 0 <= attempt <= maxAttempts
      invariant calls == calls0 + 2 * attempt
      invariant attempt < maxAttempts ==> accepted == Accepted(draw, calls0, frameSize, size, positions, maxAttempts, attempt)
      invariant attempt > 0 ==> newRect == Candidate(draw, calls0, frameSize, size, attempt - 1)
      invariant attempt == maxAttempts ==> accepted == maxAttempts - 1
    {
      var top := RandInt(draw, calls, frameSize - height);
      var left := RandInt(draw, calls + 1, frameSize - width);
      calls := calls + 2;
      newRect := Rect(top, left, top + height, left + width);
      CandidateIs(draw, calls0, frameSize, size, attempt, top, left);
      if !OverlapsAny(newRect, positions) {
        AcceptedFree(draw, calls0, frameSize, size, positions, maxAttempts, attempt);
        break;
      }
      AcceptedSkips(draw, calls0, frameSize, size, positions, maxAttempts, attempt);
      attempt := attempt + 1;
    }
    PlaceOneAppends(size, frameSize, maxAttempts, draw, positions, calls0, newRect, calls);
    res := Ok((positions + [newRect], calls));
  }

  /** With a positive attempt count and a shape that fits, the accepted candidate is appended. */
  lemma PlaceOneAppends(size: (int, int), frame: int, maxAttempts: int, draw: int -> int, placed: seq<Rect>, calls0: nat, rect: Rect, calls: nat)
    requires maxAttempts > 0 && Fits(frame, size)
    requires var a := Accepted(draw, calls0, frame, size, placed, maxAttempts, 0);
      rect == Candidate(draw, calls0, frame, size, a) && calls == calls0 + 2 * (a + 1)
    ensures PlaceOne(size, frame, maxAttempts, draw, placed, calls0) == Ok((placed + [rect], calls))
  {
  }

  /** The rectangle built from attempt b's two draws is that attempt's candidate. */
  lemma CandidateIs(draw: int -> int, calls0: nat, frame: int, size: (int, int), b: nat, top: nat, left: nat)
    requires Fits(frame, size)
    requires top == RandInt(draw, calls0 + 2 * b, frame - size.1) && left == RandInt(draw, calls0 + 2 * b + 1, frame - size.0)
    ensures Rect(top, left, top + size.1, left + size.0) == Candidate(draw, calls0, frame, size, b)
  {
  }

  /** A free candidate is accepted. */
  lemma AcceptedFree(draw: int -> int, calls0: nat, frame: int, size: (int, int), placed: seq<Rect>, maxAttempts: int, b: nat)
    requires Fits(frame, size) && b < maxAttempts
    requires !OverlapsAny(Candidate(draw, calls0, frame, size, b), placed)
    ensures Accepted(draw, calls0, frame, size, placed, maxAttempts, b) == b
  {
  }

  /** An overlapping candidate that is not the last attempt passes the choice on to the next one. */
  lemma AcceptedSkips(draw: int -> int, calls0: nat, frame: int, size: (int, int), placed: seq<Rect>, maxAttempts: int, b: nat)
    requires Fits(frame, size) && b < maxAttempts
    requires OverlapsAny(Candidate(draw, calls0, frame, size, b), placed)
    ensures b + 1 < maxAttempts ==> Accepted(draw, calls0, frame, size, placed, maxAttempts, b) == Accepted(draw, calls0, frame, size, placed, maxAttempts, b + 1)
    ensures b + 1 == maxAttempts ==> Accepted(draw, calls0, frame, size, placed, maxAttempts, b) == b
  {
  }

  /** generate_positions: shapes in order, each tried up to max_attempts times. */
  method GeneratePositions(shapes: seq<string>, frameSize: int, maxAttempts: int, draw: int -> int) returns (r: Result<seq<Position>, PlacementError>)
    ensures r == GeneratePositionsSpec(shapes, frameSize, maxAttempts, draw)
  {
    var positions: seq<Rect> := [];
    var calls: nat := 0;
    var i := 0;
    while i < |shapes|
      invariant 0 <= i <= |shapes|
      invariant PlaceShapes(shapes, frameSize, maxAttempts, draw, i) == Ok((positions, calls))
    {
      var step := PlaceShape(ShapeSize(shapes[i]), frameSize, maxAttempts, draw, positions, calls);
      PlaceShapesNext(shapes, frameSize, maxAttempts, draw, i, positions, calls);
      if step.Err? {
        r := Err(step.error);
        PlaceShapesFailureSticks(shapes, frameSize, maxAttempts, draw, i + 1, |shapes|);
        return;
      }
      positions, calls := step.value.0, step.value.1;
      i := i + 1;
    }
    r := Ok(Positions(positions));
  }

  /** One more shape, after the first i went through with these rectangles and draws. */
  lemma PlaceShapesNext(shapes: seq<string>, frame: int, maxAttempts: int, draw: int -> int, i: nat, placed: seq<Rect>, calls: nat)
    requires i < |shapes| && PlaceShapes(shapes, frame, maxAttempts, draw, i) == Ok((placed, calls))
    ensures PlaceShapes(shapes, frame, maxAttempts, draw, i + 1) == PlaceOne(ShapeSize(shapes[i]), frame, maxAttempts, draw, placed, calls)
  {
  }

  lemma {:induction false} PlaceShapesFailureSticks(shapes: seq<string>, frame: int, maxAttempts: int, draw: int -> int, k: nat, m: nat)
    requires k <= m <= |shapes|
    requires PlaceShapes(shapes, frame, maxAttempts, draw, k).Err?
    ensures PlaceShapes(shapes, frame, maxAttempts, draw, m) == PlaceShapes(shapes, frame, maxAttempts, draw, k)
  {
    if m > k {
      var j: nat := m - 1;
      PlaceShapesFailureSticks(shapes, frame, maxAttempts, draw, k, j);
    }
  }

  /** The rectangle lies inside the frame with the shape's own width and height. */
  predicate InFrame(r: Rect, size: (int, int), frame: int)
  {
    var width, height := size.0, size.1;
    && 0 <= r.top <= frame - height && 0 <= r.left <= frame - width
    && r.bottom == r.top + height && r.right == r.left + width
  }

  /** The draws used before shape k's first attempt. */
  function CallsBefore(shapes: seq<string>, frame: int, maxAttempts: int, draw: int -> int, k: nat): nat
    requires k <= |shapes| && PlaceShapes(shapes, frame, maxAttempts, draw, k).Ok?
  {
    PlaceShapes(shapes, frame, maxAttempts, draw, k).value.1
  }

  lemma {:induction false} PlaceShapesLength(shapes: seq<string>, frame: int, maxAttempts: int, draw: int -> int, i: nat)
    requires i <= |shapes| && PlaceShapes(shapes, frame, maxAttempts, draw, i).Ok?
    ensures |PlaceShapes(shapes, frame, maxAttempts, draw, i).value.0| == i
  {
    if i > 0 {
      var j: nat := i - 1;
      PlaceShapesLength(shapes, frame, maxAttempts, draw, j);
    }
  }

  /** Later shapes only append: the first k rectangles are those placed for the first k shapes. */
  lemma {:induction false} PlaceShapesPrefix(shapes: seq<string>, frame: int, maxAttempts: int, draw: int -> int, k: nat, i: nat)
    requires k <= i <= |shapes| && PlaceShapes(shapes, frame, maxAttempts, draw, i).Ok?
    ensures PlaceShapes(shapes, frame, maxAttempts, draw, k).Ok?
    ensures |PlaceShapes(shapes, frame, maxAttempts, draw, i).value.0| == i
    ensures PlaceShapes(shapes, frame, maxAttempts, draw, k).value.0 == PlaceShapes(shapes, frame, maxAttempts, draw, i).value.0[..k]
  {
    PlaceShapesLength(shapes, frame, maxAttempts, draw, i);
    if k < i {
      var j: nat := i - 1;
      assert PlaceShapes(shapes, frame, maxAttempts, draw, j).Ok?;
      PlaceShapesPrefix(shapes, frame, maxAttempts, draw, k, j);
      PlaceShapesLength(shapes, frame, maxAttempts, draw, j);
      var prev := PlaceShapes(shapes, frame, maxAttempts, draw, j).value.0;
      var cur := PlaceShapes(shapes, frame, maxAttempts, draw, i).value.0;
      assert cur[..j] == prev;
      assert cur[..k] == prev[..k];
    } else {
      assert PlaceShapes(shapes, frame, maxAttempts, draw, i).value.0[..k] == PlaceShapes(shapes, frame, maxAttempts, draw, i).value.0;
    }
  }

  /**
   * Shape k's rectangle lies inside the frame with the shape's own size, and is either free of
   * every earlier rectangle or the fallback after all max_attempts candidates overlapped.
   */
  lemma ShapePlaced(shapes: seq<string>, frame: int, maxAttempts: int, draw: int -> int, k: nat)
    requires k < |shapes| && PlaceShapes(shapes, frame, maxAttempts, draw, |shapes|).Ok?
    ensures var placed := PlaceShapes(shapes, frame, maxAttempts, draw, |shapes|).value.0;
      && |placed| == |shapes|
      && InFrame(placed[k], ShapeSize(shapes[k]), frame)
      && PlaceShapes(shapes, frame, maxAttempts, draw, k).Ok? && Fits(frame, ShapeSize(shapes[k])) && maxAttempts > 0
      && (!OverlapsAny(placed[k], placed[..k])
          || forall b :: 0 <= b < maxAttempts ==>
               OverlapsAny(Candidate(draw, CallsBefore(shapes, frame, maxAttempts, draw, k), frame, ShapeSize(shapes[k]), b), placed[..k]))
  {
    var placed := PlaceShapes(shapes, frame, maxAttempts, draw, |shapes|).value.0;
    PlaceShapesPrefix(shapes, frame, maxAttempts, draw, k + 1, |shapes|);
    PlaceShapesPrefix(shapes, frame, maxAttempts, draw, k, |shapes|);
    var prev := PlaceShapes(shapes, frame, maxAttempts, draw, k).value;
    PlaceShapesNext(shapes, frame, maxAttempts, draw, k, prev.0, prev.1);
    PlaceOneOk(ShapeSize(shapes[k]), frame, maxAttempts, draw, prev.0, prev.1);
    var size := ShapeSize(shapes[k]);
    var c := Candidate(draw, prev.1, frame, size, Accepted(draw, prev.1, frame, size, prev.0, maxAttempts, 0));
    assert placed[..k + 1] == prev.0 + [c];
    assert placed[k] == placed[..k + 1][k];
    assert placed[..k] == prev.0;
    CandidateChosen(draw, prev.1, frame, size, prev.0, maxAttempts);
  }

  /** A shape that was placed had a positive attempt count and fitted, and its accepted candidate was appended. */
  lemma PlaceOneOk(size: (int, int), frame: int, maxAttempts: int, draw: int -> int, placed: seq<Rect>, calls: nat)
    requires PlaceOne(size, frame, maxAttempts, draw, placed, calls).Ok?
    ensures maxAttempts > 0 && Fits(frame, size)
    ensures var a := Accepted(draw, calls, frame, size, placed, maxAttempts, 0);
      PlaceOne(size, frame, maxAttempts, draw, placed, calls).value.0 == placed + [Candidate(draw, calls, frame, size, a)]
  {
  }

  /** The accepted candidate lies in the frame, and it is free of `placed` unless every attempt overlapped. */
  lemma CandidateChosen(draw: int -> int, calls0: nat, frame: int, size: (int, int), placed: seq<Rect>, maxAttempts: int)
    requires Fits(frame, size) && maxAttempts > 0
    ensures var c := Candidate(draw, calls0, frame, size, Accepted(draw, calls0, frame, size, placed, maxAttempts, 0));
      && InFrame(c, size, frame)
      && (!OverlapsAny(c, placed)
          || forall b :: 0 <= b < maxAttempts ==> OverlapsAny(Candidate(draw, calls0, frame, size, b), placed))
  {
    var a := Accepted(draw, calls0, frame, size, placed, maxAttempts, 0);
    CandidateInFrame(draw, calls0, frame, size, a);
    AcceptedIsFirstFree(draw, calls0, frame, size, placed, maxAttempts, 0);
    if OverlapsAny(Candidate(draw, calls0, frame, size, a), placed) {
      forall b | 0 <= b < maxAttempts
        ensures OverlapsAny(Candidate(draw, calls0, frame, size, b), placed)
      {
        if b >= a {
          assert b == a;
        }
      }
    }
  }

  lemma CandidateInFrame(draw: int -> int, calls0: nat, frame: int, size: (int, int), b: nat)
    requires Fits(frame, size)
    ensures InFrame(Candidate(draw, calls0, frame, size, b), size, frame)
  {
  }

  /**
   * generate_positions returns one {top, left} per shape, in shape order, with every top in
   * [0, frame - height] and every left in [0, frame - width].
   */
  lemma GeneratePositionsBounds(shapes: seq<string>, frame: int, maxAttempts: int, draw: int -> int)
    requires GeneratePositionsSpec(shapes, frame, maxAttempts, draw).Ok?
    ensures var ps := GeneratePositionsSpec(shapes, frame, maxAttempts, draw).value;
      && |ps| == |shapes|
      && forall k :: 0 <= k < |shapes| ==>
           0 <= ps[k].top <= frame - ShapeSize(shapes[k]).1 && 0 <= ps[k].left <= frame - ShapeSize(shapes[k]).0
  {
    PlaceShapesLength(shapes, frame, maxAttempts, draw, |shapes|);
    forall k | 0 <= k < |shapes|
      ensures InFrame(PlaceShapes(shapes, frame, maxAttempts, draw, |shapes|).value.0[k], ShapeSize(shapes[k]), frame)
    {
      ShapePlaced(shapes, frame, maxAttempts, draw, k);
    }
  }

  /** It fails exactly when some shape is asked for, and max_attempts is not positive or some shape is larger than the frame. */
  lemma {:induction false} PlaceShapesErrors(shapes: seq<string>, frame: int, maxAttempts: int, draw: int -> int, i: nat)
    requires i <= |shapes|
    ensures PlaceShapes(shapes, frame, maxAttempts, draw, i).Err? <==>
      i > 0 && (maxAttempts <= 0 || exists k :: 0 <= k < i && !Fits(frame, ShapeSize(shapes[k])))
    ensures PlaceShapes(shapes, frame, maxAttempts, draw, i) == Err(UnboundCandidate) <==> i > 0 && maxAttempts <= 0
  {
    if i > 0 {
      var j: nat := i - 1;
      PlaceShapesErrors(shapes, frame, maxAttempts, draw, j);
    }
  }

  /** With the frame and attempt count the views use, placement never fails. */
  lemma ViewPlacementSucceeds(shapes: seq<string>, draw: int -> int)
    ensures GeneratePositionsSpec(shapes, 500, 100, draw).Ok?
  {
    PlaceShapesErrors(shapes, 500, 100, draw, |shapes|);
  }

  // ---------------------------------------------------------------------------------
  // Grading

  /** The set of a list. */
  function SetOf(s: seq<string>): (r: set<string>)
    ensures forall x :: x in r <==> x in s
  {
    set x | x in s
  }

  /** dict(zip(keys, values)) over the first n pairs: later pairs overwrite earlier ones. */
  function ZipMap(keys: seq<string>, values: seq<string>, n: nat): (m: map<string, string>)
    requires n <= |keys| && n <= |values|
    ensures m.Keys == SetOf(keys[..n])
  {
    if n == 0 then map[] else ZipMap(keys, values, n - 1)[keys[n - 1] := values[n - 1]]
  }

  function MinLength(a: seq<string>, b: seq<string>): nat
  {
    if |a| < |b| then |a| else |b|
  }

  /** dict(zip(keys, values)): zip stops at the shorter list. */
  function Zip(keys: seq<string>, values: seq<string>): map<string, string>
  {
    ZipMap(keys, values, MinLength(keys, values))
  }

  /** A key maps to the value of its last occurrence among the first n pairs. */
  lemma {:induction false} ZipMapLastWins(keys: seq<string>, values: seq<string>, n: nat, j: nat)
    requires n <= |keys| && n <= |values| && j < n
    requires forall k :: j < k < n ==> keys[k] != keys[j]
    ensures ZipMap(keys, values, n)[keys[j]] == values[j]
  {
    if j < n - 1 {
      var m: nat := n - 1;
      ZipMapLastWins(keys, values, m, j);
    }
  }

  /** Whether the shown set matches the memorised one: as sets in easy mode, shape-to-colour maps otherwise. */
  function Correct(difficulty: string, prevShapes: seq<string>, prevColours: seq<string>, currShapes: seq<string>, currColours: seq<string>): bool
  {
    if difficulty == "easy" then SetOf(prevShapes) == SetOf(currShapes)
    else Zip(prevShapes, prevColours) == Zip(currShapes, currColours)
  }

  /** Easy mode ignores order, repetition and colours: the answer depends only on which shapes appear. */
  lemma EasyGrading(prevShapes: seq<string>, prevColours: seq<string>, currShapes: seq<string>, currColours: seq<string>)
    ensures Correct("easy", prevShapes, prevColours, currShapes, currColours) <==>
      (forall x :: x in prevShapes <==> x in currShapes)
  {
    if forall x :: x in prevShapes <==> x in currShapes {
      assert SetOf(prevShapes) == SetOf(currShapes);
    }
  }

  /** The shown set is the memorised one copied: the answer is always "correct", in both modes. */
  lemma SameSetIsCorrect(difficulty: string, shapes: seq<string>, colours: seq<string>)
    ensures Correct(difficulty, shapes, colours, shapes, colours)
  {
  }

  /**
   * In hard mode a shape with a different colour makes the sets differ, when the shape lists
   * are the same and each shape appears once.
   */
  lemma HardGradingSeesColour(shapes: seq<string>, prevColours: seq<string>, currColours: seq<string>, j: nat)
    requires |prevColours| == |shapes| && |currColours| == |shapes| && j < |shapes|
    requires forall k :: 0 <= k < |shapes| && k != j ==> shapes[k] != shapes[j]
    requires prevColours[j] != currColours[j]
    ensures !Correct("hard", shapes, prevColours, shapes, currColours)
  {
    ZipMapLastWins(shapes, prevColours, |shapes|, j);
    ZipMapLastWins(shapes, currColours, |shapes|, j);
  }

  /** A duplicate shape keeps only its last colour: two lists differing only in an overwritten colour grade as equal. */
  lemma HardGradingLastColourWins(shape: string, first: string, other: string, last: string)
    ensures Correct("hard", [shape, shape], [first, last], [shape, shape], [other, last])
  {
    assert Zip([shape, shape], [first, last]) == map[shape := last];
    assert Zip([shape, shape], [other, last]) == map[shape := last];
  }

  /** The point scored: "Same" on a correct set, or "Different" on an incorrect one. */
  function Scores(choice: Option<string>, correct: bool): (r: bool)
    ensures r <==> choice.Some? && (if correct then choice.value == "Same" else choice.value == "Different")
  {
    (choice == Some("Same") && correct) || (choice == Some("Different") && !correct)
  }

  /** A missing or unknown choice never scores. */
  lemma UnknownChoiceNeverScores(choice: Option<string>, correct: bool)
    requires choice != Some("Same") && choice != Some("Different")
    ensures !Scores(choice, correct)
  {
  }

  // ---------------------------------------------------------------------------------
  // The result average

  /** sum(reaction_times) / max(len(reaction_times), 1). */
  function AverageReaction(times: seq<real>): (r: real)
    ensures |times| == 0 ==> r == 0.0
    ensures |times| > 0 ==> r == Stats.Mean(times)
  {
    Stats.Sum(times) / (if |times| > 1 then |times| else 1) as real
  }

  /** The average lies between the fastest and the slowest recorded time. */
  lemma AverageReactionBounds(times: seq<real>, lo: real, hi: real)
    requires |times| > 0
    requires forall i :: 0 <= i < |times| ==> lo <= times[i] <= hi
    ensures lo <= AverageReaction(times) <= hi
  {
    Stats.MeanBounds(times, lo, hi);
  }

  /** Non-negative times give a non-negative average, also when there are none. */
  lemma AverageReactionNonNegative(times: seq<real>)
    requires forall i :: 0 <= i < |times| ==> times[i] >= 0.0
    ensures AverageReaction(times) >= 0.0
  {
    Stats.SumNonNegative(times);
  }

  // ---------------------------------------------------------------------------------
  // The session

  /** The colour list of a shape set: fixed per shape in easy mode, random.choice(COLOUR_LIST) otherwise. */
  function Colours(difficulty: string, shapes: seq<string>, pick: nat -> nat): (cs: seq<string>)
    ensures |cs| == |shapes|
  {
    seq(|shapes|, i requires 0 <= i < |shapes| =>
      if difficulty == "easy" then DefaultColour(shapes[i]) else ColourList[pick(i) % |ColourList|])
  }

  /** The loop of memory_memorize that assigns one colour per sampled shape. */
  method AssignColours(difficulty: string, shapes: seq<string>, pick: nat -> nat) returns (colours: seq<string>)
    ensures colours == Colours(difficulty, shapes, pick)
  {
    colours := [];
    var i := 0;
    while i < |shapes|
      invariant 0 <= i <= |shapes|
      invariant colours == Colours(difficulty, shapes, pick)[..i]
    {
      if difficulty == "easy" {
        colours := colours + [DefaultColour(shapes[i])];
      } else {
        colours := colours + [ColourList[pick(i) % |ColourList|]];
      }
      i := i + 1;
    }
  }

  /** In easy mode a shape always has its own colour; otherwise every colour is from COLOUR_LIST. */
  lemma ColoursChosen(difficulty: string, shapes: seq<string>, pick: nat -> nat)
    ensures forall i :: 0 <= i < |shapes| ==>
      if difficulty == "easy" then Colours(difficulty, shapes, pick)[i] == DefaultColour(shapes[i])
      else Colours(difficulty, shapes, pick)[i] in ColourList
    ensures difficulty == "easy" ==> forall i, j :: 0 <= i < |shapes| && 0 <= j < |shapes| && shapes[i] == shapes[j] ==>
      Colours(difficulty, shapes, pick)[i] == Colours(difficulty, shapes, pick)[j]
  {
  }

  // ---------------------------------------------------------------------------------
  // random.sample

  /** No element occurs twice. */
  predicate Distinct(s: seq<string>)
  {
    forall a, b :: 0 <= a < b < |s| ==> s[a] != s[b]
  }

  /**
   * k draws without replacement from pool: draw j of the oracle picks one of the elements not
   * drawn yet, which is then taken out of the pool.
   */
  function SampleFrom(pool: seq<string>, k: nat, pick: nat -> nat, j: nat): (r: seq<string>)
    requires k <= |pool|
    ensures |r| == k
    decreases k
  {
    if k == 0 then []
    else
      var i := pick(j) % |pool|;
      [pool[i]] + SampleFrom(pool[..i] + pool[i + 1..], k - 1, pick, j + 1)
  }

  /** Taking element i out of a list without repetitions leaves a list without repetitions and without it. */
  lemma RemoveDistinct(pool: seq<string>, i: nat)
    requires i < |pool| && Distinct(pool)
    ensures Distinct(pool[..i] + pool[i + 1..])
    ensures pool[i] !in pool[..i] + pool[i + 1..]
    ensures forall x :: x in pool[..i] + pool[i + 1..] ==> x in pool
  {
    var rest := pool[..i] + pool[i + 1..];
    assert forall a :: 0 <= a < |rest| ==> rest[a] == if a < i then pool[a] else pool[a + 1];
    forall a, b | 0 <= a < b < |rest| ensures rest[a] != rest[b] {
      var a', b' := if a < i then a else a + 1, if b < i then b else b + 1;
      assert rest[a] == pool[a'] && rest[b] == pool[b'];
    }
    forall x | x in rest ensures x != pool[i] && x in pool {
      var a :| 0 <= a < |rest| && rest[a] == x;
      var a' := if a < i then a else a + 1;
      assert x == pool[a'];
    }
  }

  /** A sample of a list without repetitions has no repetitions and only elements of the list. */
  lemma {:induction false} SampleFromDistinct(pool: seq<string>, k: nat, pick: nat -> nat, j: nat)
    requires k <= |pool| && Distinct(pool)
    ensures Distinct(SampleFrom(pool, k, pick, j))
    ensures forall x :: x in SampleFrom(pool, k, pick, j) ==> x in pool
    decreases k
  {
    if k > 0 {
      var i := pick(j) % |pool|;
      var rest := pool[..i] + pool[i + 1..];
      RemoveDistinct(pool, i);
      SampleFromDistinct(rest, k - 1, pick, j + 1);
      var r, t := SampleFrom(pool, k, pick, j), SampleFrom(rest, k - 1, pick, j + 1);
      assert r == [pool[i]] + t;
      forall a, b | 0 <= a < b < |r| ensures r[a] != r[b] {
        assert r[b] == t[b - 1] && t[b - 1] in t;
        if a > 0 {
          assert r[a] == t[a - 1];
        }
      }
      forall x | x in r ensures x in pool {
        if x != pool[i] {
          assert x in t;
        }
      }
    }
  }

  /** What the two phases can raise besides a redirect: a missing session key, or random.sample's ValueError. */
  datatype SessionError = KeyError(key: string) | SampleSizeError(k: int)

  /** random.sample(SHAPES, k): ValueError when k is negative or above 7, else k distinct shapes. */
  function RandomSample(k: int, pick: nat -> nat): Result<seq<string>, SessionError>
  {
    if 0 <= k <= |Shapes| then Ok(SampleFrom(Shapes, k, pick, 0)) else Err(SampleSizeError(k))
  }

  /** The sample exists iff 0 <= k <= 7, and then holds k distinct shapes of SHAPES. */
  lemma RandomSampleSpec(k: int, pick: nat -> nat)
    ensures RandomSample(k, pick).Ok? <==> 0 <= k <= 7
    ensures RandomSample(k, pick).Ok? ==>
      var r := RandomSample(k, pick).value;
      |r| == k && Distinct(r) && forall x :: x in r ==> x in Shapes
  {
    if 0 <= k <= |Shapes| {
      SampleFromDistinct(Shapes, k, pick, 0);
    }
  }

  /** What a view answers. */
  datatype Page = RedirectToResult | RedirectToMemorize | ShowMemorize(roundNum: int) | ShowComparison(roundNum: int) | Failed(error: SessionError)

  /** The test's entries of the Flask session. */
  class MemorySession {
    /** session['round']; absent until the test is started. */
    var round: Option<int>
    var score: int
    var reactionTimes: seq<real>
    /** int(session.get('num_rounds', 5)). */
    var numRounds: int
    /** session.get('num_shapes', 3). */
    var numShapes: int
    /** session.get('difficulty', 'easy'). */
    var difficulty: string
    /** The four shape and colour entries; absent until the first memorisation writes them. */
    var previousShapes: Option<seq<string>>
    var previousColours: Option<seq<string>>
    var currentShapes: Option<seq<string>>
    var currentColours: Option<seq<string>>
    var shapePositions: seq<Position>

    /**
     * No more points than answered rounds and no round past the last. (The reaction times are
     * not bounded by the rounds: a POST that fails on a missing key has appended its time.)
     */
    predicate Valid()
      reads this
    {
      round.Some? ==>
        && 0 <= score <= round.value
        && (round.value == 0 || round.value <= numRounds)
    }

    /** A session with the physician's settings, no test under way and no shapes memorised. */
    constructor (numRounds: int, numShapes: int, difficulty: string)
      ensures this.numRounds == numRounds && this.numShapes == numShapes && this.difficulty == difficulty
      ensures round == None && Valid()
      ensures previousShapes == None && previousColours == None && currentShapes == None && currentColours == None
    {
      this.numRounds := numRounds;
      this.numShapes := numShapes;
      this.difficulty := difficulty;
      round := None;
      score := 0;
      reactionTimes := [];
      previousShapes := None;
      previousColours := None;
      currentShapes := None;
      currentColours := None;
      shapePositions := [];
    }

    /** The guard both phases share: no round counter yet, or the last round is done. */
    predicate Finished()
      reads this
    {
      round.None? || round.value >= numRounds
    }

    /** The first of the four entries the POST reads that is absent, in the order it reads them. */
    function FirstMissing(): (r: Option<string>)
      reads this
      ensures r.None? <==> previousShapes.Some? && previousColours.Some? && currentShapes.Some? && currentColours.Some?
    {
      if previousShapes.None? then Some("previous_shapes")
      else if previousColours.None? then Some("previous_colours")
      else if currentShapes.None? then Some("current_shapes")
      else if currentColours.None? then Some("current_colours")
      else None
    }

    /** start_memory_test: round and score back to 0, no reaction times. */
    method Start()
      modifies this
      ensures round == Some(0) && score == 0 && reactionTimes == []
      ensures numRounds == old(numRounds) && numShapes == old(numShapes) && difficulty == old(difficulty)
      ensures previousShapes == old(previousShapes) && previousColours == old(previousColours)
      ensures currentShapes == old(currentShapes) && currentColours == old(currentColours)
      ensures shapePositions == old(shapePositions)
      ensures Valid()
    {
      round := Some(0);
      score := 0;
      reactionTimes := [];
    }

    /**
     * memory_memorize: after the last round, redirect to the result; otherwise sample
     * num_shapes shapes (a ValueError for an impossible count), show them with their colours
     * and positions, and remember them for both phases.
     */
    method Memorize(pickShape: nat -> nat, pick: nat -> nat, draw: int -> int) returns (page: Page)
      requires Valid()
      modifies this
      ensures Valid()
      ensures old(Finished()) ==> page == RedirectToResult && unchanged(this)
      ensures !old(Finished()) && RandomSample(old(numShapes), pickShape).Err? ==>
        page == Failed(RandomSample(old(numShapes), pickShape).error) && unchanged(this)
      ensures !old(Finished()) && RandomSample(old(numShapes), pickShape).Ok? ==>
        var sampled := RandomSample(old(numShapes), pickShape).value;
        && page == ShowMemorize(old(round).value + 1)
        && previousShapes == Some(sampled) && currentShapes == Some(sampled)
        && previousColours == Some(Colours(old(difficulty), sampled, pick)) && currentColours == previousColours
        && GeneratePositionsSpec(sampled, 500, 100, draw) == Ok(shapePositions)
        && round == old(round) && score == old(score) && reactionTimes == old(reactionTimes)
        && numRounds == old(numRounds) && numShapes == old(numShapes) && difficulty == old(difficulty)
    {
      if Finished() {
        return RedirectToResult;
      }
      var sample := RandomSample(numShapes, pickShape);
      if sample.Err? {
        return Failed(sample.error);
      }
      page := MemorizeSample(sample.value, pick, draw);
    }

    /** Lines 133-155 of memory_memorize: colour, place, store and show a sampled set. */
    method MemorizeSample(sampled: seq<string>, pick: nat -> nat, draw: int -> int) returns (page: Page)
      requires Valid() && round.Some?
      modifies this
      ensures Valid()
      ensures page == ShowMemorize(old(round).value + 1)
      ensures previousShapes == Some(sampled) && currentShapes == Some(sampled)
      ensures previousColours == Some(Colours(old(difficulty), sampled, pick)) && currentColours == previousColours
      ensures GeneratePositionsSpec(sampled, 500, 100, draw) == Ok(shapePositions)
      ensures round == old(round) && score == old(score) && reactionTimes == old(reactionTimes)
      ensures numRounds == old(numRounds) && numShapes == old(numShapes) && difficulty == old(difficulty)
    {
      var colours := AssignColours(difficulty, sampled, pick);
      var positions := GeneratePositions(sampled, 500, 100, draw);
      ViewPlacementSucceeds(sampled, draw);
      previousShapes := Some(sampled);
      previousColours := Some(colours);
      currentShapes := Some(sampled);
      currentColours := Some(colours);
      shapePositions := positions.value;
      page := ShowMemorize(round.value + 1);
    }

    /**
     * memory_test_view, GET: after the last round, redirect; otherwise read the memorised set
     * (a KeyError when it was never written) and show it again (same) or a freshly sampled
     * one, with new positions.
     */
    method ShowResponse(same: bool, pickShape: nat -> nat, pick: nat -> nat, draw: int -> int) returns (page: Page)
      requires Valid()
      modifies this
      ensures Valid()
      ensures old(Finished()) ==> page == RedirectToResult && unchanged(this)
      ensures !old(Finished()) && old(previousShapes).None? ==>
        page == Failed(KeyError("previous_shapes")) && unchanged(this)
      ensures !old(Finished()) && old(previousShapes).Some? && old(previousColours).None? ==>
        page == Failed(KeyError("previous_colours")) && unchanged(this)
      ensures !old(Finished()) && old(previousShapes).Some? && old(previousColours).Some? && !same && RandomSample(old(numShapes), pickShape).Err? ==>
        page == Failed(RandomSample(old(numShapes), pickShape).error) && unchanged(this)
      ensures !old(Finished()) && old(previousShapes).Some? && old(previousColours).Some? && (same || RandomSample(old(numShapes), pickShape).Ok?) ==>
        && page == ShowComparison(old(round).value + 1)
        && (same ==> currentShapes == old(previousShapes) && currentColours == old(previousColours))
        && (!same ==>
              var sampled := RandomSample(old(numShapes), pickShape).value;
              currentShapes == Some(sampled) && currentColours == Some(Colours(old(difficulty), sampled, pick)))
        && currentShapes.Some? && GeneratePositionsSpec(currentShapes.value, 500, 100, draw) == Ok(shapePositions)
        && previousShapes == old(previousShapes) && previousColours == old(previousColours)
        && round == old(round) && score == old(score) && reactionTimes == old(reactionTimes)
        && numRounds == old(numRounds) && numShapes == old(numShapes) && difficulty == old(difficulty)
    {
      if Finished() {
        return RedirectToResult;
      }
      if previousShapes.None? {
        return Failed(KeyError("previous_shapes"));
      }
      if previousColours.None? {
        return Failed(KeyError("previous_colours"));
      }
      var shapes := previousShapes.value;
      var colours := previousColours.value;
      if !same {
        var sample := RandomSample(numShapes, pickShape);
        if sample.Err? {
          return Failed(sample.error);
        }
        shapes := sample.value;
        colours := Colours(difficulty, shapes, pick);
      }
      var positions := GeneratePositions(shapes, 500, 100, draw);
      ViewPlacementSucceeds(shapes, draw);
      currentShapes := Some(shapes);
      currentColours := Some(colours);
      shapePositions := positions.value;
      page := ShowComparison(round.value + 1);
    }

    /**
     * memory_test_view, POST: after the last round, redirect and change nothing; otherwise
     * record the submitted reaction time, then read the four entries (a KeyError for the first
     * one never written), grade the answer, score it, and advance the round.
     */
    method Respond(choice: Option<string>, reactionTime: Option<real>) returns (page: Page)
      requires Valid()
      modifies this
      ensures Valid()
      ensures old(Finished()) ==> page == RedirectToResult && unchanged(this)
      ensures !old(Finished()) ==>
        && reactionTimes == old(reactionTimes) + (if reactionTime.Some? then [reactionTime.value] else [])
        && previousShapes == old(previousShapes) && previousColours == old(previousColours)
        && currentShapes == old(currentShapes) && currentColours == old(currentColours)
        && shapePositions == old(shapePositions)
        && numRounds == old(numRounds) && numShapes == old(numShapes) && difficulty == old(difficulty)
      ensures !old(Finished()) && old(FirstMissing()).Some? ==>
        page == Failed(KeyError(old(FirstMissing()).value)) && round == old(round) && score == old(score)
      ensures !old(Finished()) && old(FirstMissing()).None? ==>
        && page == RedirectToMemorize
        && round == Some(old(round).value + 1)
        && score == old(score) + (if Scores(choice, Correct(difficulty, previousShapes.value, previousColours.value, currentShapes.value, currentColours.value)) then 1 else 0)
    {
      if Finished() {
        return RedirectToResult;
      }
      if reactionTime.Some? {
        reactionTimes := reactionTimes + [reactionTime.value];
      }
      if previousShapes.None? {
        return Failed(KeyError("previous_shapes"));
      }
      if previousColours.None? {
        return Failed(KeyError("previous_colours"));
      }
      if currentShapes.None? {
        return Failed(KeyError("current_shapes"));
      }
      if currentColours.None? {
        return Failed(KeyError("current_colours"));
      }
      var correct := Correct(difficulty, previousShapes.value, previousColours.value, currentShapes.value, currentColours.value);
      if (choice == Some("Same") && correct) || (choice == Some("Different") && !correct) {
        score := score + 1;
      }
      round := Some(round.value + 1);
      page := RedirectToMemorize;
    }

    /** memory_result's average reaction time. */
    function Average(): (r: real)
      reads this
      ensures |reactionTimes| == 0 ==> r == 0.0
      ensures |reactionTimes| > 0 ==> r == Stats.Mean(reactionTimes)
    {
      AverageReaction(reactionTimes)
    }
  }
}
