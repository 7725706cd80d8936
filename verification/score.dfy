/** The score that decides how long an entry is fuzzed. */
module Score {
  import opened Buffers
  import opened Havoc

  datatype Measure = Measure(execUs: nat, bitmapSize: nat, handicap: nat, depth: nat)

  /** The score of an entry, given the averages over the queue, and its handicap afterwards. */
  method CalculateScore(q: Measure, avgExecUs: nat, avgBitmapSize: nat) returns (score: nat, handicap: nat)
    ensures 2 <= score <= HAVOC_MAX_MULT * 100 && score == PerfScore(q, avgExecUs, avgBitmapSize)
    ensures handicap == if q.handicap >= 4 then q.handicap - 4 else if q.handicap > 0 then q.handicap - 1 else 0
  {
    score := SpeedScore(q.execUs as real, avgExecUs as real);
    score := Scaled(score, SizeFactor(q.bitmapSize as real, avgBitmapSize as real));
    ghost var own := score;
    handicap := q.handicap;
    if handicap >= 4 {
      score, handicap := score * 4, handicap - 4;
    } else if handicap > 0 {
      score, handicap := score * 2, handicap - 1;
    }
    assert score == own * HandicapFactor(q.handicap);
    if q.depth <= 3 {
    } else if q.depth <= 7 {
      score := score * 2;
    } else if q.depth <= 13 {
      score := score * 3;
    } else if q.depth <= 25 {
      score := score * 4;
    } else {
      score := score * 5;
    }
    if score > HAVOC_MAX_MULT * 100 {
      score := HAVOC_MAX_MULT * 100;
    }
  }

  function HandicapFactor(handicap: nat): nat {
    if handicap >= 4 then 4 else if handicap > 0 then 2 else 1
  }

  function DepthFactor(depth: nat): nat {
    if depth > 25 then 5 else if depth > 13 then 4 else if depth > 7 then 3 else if depth > 3 then 2 else 1
  }

  function PerfScore(q: Measure, avgExecUs: nat, avgBitmapSize: nat): nat {
    var own := Scaled(SpeedScore(q.execUs as real, avgExecUs as real), SizeFactor(q.bitmapSize as real, avgBitmapSize as real));
    Min(own * HandicapFactor(q.handicap) * DepthFactor(q.depth), HAVOC_MAX_MULT * 100)
  }

  /** An entry that is as fast or faster, covers as much or more, and is as new and as deep or
      more, never scores less. */
  lemma ScoreMonotone(p: Measure, q: Measure, avgExecUs: nat, avgBitmapSize: nat)
    requires q.execUs <= p.execUs && q.bitmapSize >= p.bitmapSize && q.handicap >= p.handicap && q.depth >= p.depth
    ensures PerfScore(p, avgExecUs, avgBitmapSize) <= PerfScore(q, avgExecUs, avgBitmapSize)
  {
    var a, b := SpeedScore(p.execUs as real, avgExecUs as real), SpeedScore(q.execUs as real, avgExecUs as real);
    var f, g := SizeFactor(p.bitmapSize as real, avgBitmapSize as real), SizeFactor(q.bitmapSize as real, avgBitmapSize as real);
    FasterScoresMore(q.execUs as real, p.execUs as real, avgExecUs as real);
    LargerScoresMore(p.bitmapSize as real, q.bitmapSize as real, avgBitmapSize as real);
    ScaledMonotone(a, b, f, g);
    ProductMonotone(Scaled(a, f), Scaled(b, g), HandicapFactor(p.handicap), HandicapFactor(q.handicap));
    ProductMonotone(Scaled(a, f) * HandicapFactor(p.handicap), Scaled(b, g) * HandicapFactor(q.handicap),
                    DepthFactor(p.depth), DepthFactor(q.depth));
  }

  lemma ProductMonotone(a: nat, b: nat, m: nat, n: nat)
    requires a <= b && m <= n
    ensures a * m <= b * n
  {
    assert a * m <= b * m;
    assert b * m <= b * n;
  }

  lemma RealProducts(a: real, b: real, f: real, g: real)
    requires 0.0 <= a <= b && 0.0 <= f <= g
    ensures a * f <= b * g
  {
    assert a * f <= b * f;
    assert b * f <= b * g;
  }

  lemma FloorMonotone(p: real, q: real)
    requires p <= q
    ensures p.Floor <= q.Floor
  {
  }

  lemma ScaledMonotone(a: nat, b: nat, f: real, g: real)
    requires a <= b && 0.25 <= f <= g
    ensures Scaled(a, f) <= Scaled(b, g)
  {
    RealProducts(a as real, b as real, f, g);
    FloorMonotone(a as real * f, b as real * g);
  }

  /** Above or below the usual score exactly if the entry is clearly faster or slower than the
      average. */
  lemma FasterScoresMore(us: real, slower: real, avg: real)
    requires 0.0 <= us <= slower && 0.0 <= avg
    ensures SpeedScore(slower, avg) <= SpeedScore(us, avg)
    ensures SpeedScore(us, avg) > 100 <==> 2.0 * us < avg
    ensures SpeedScore(us, avg) < 100 <==> 3.0 * us > 4.0 * avg
  {
  }

  lemma LargerScoresMore(smaller: real, size: real, avg: real)
    requires 0.0 <= smaller <= size && 0.0 <= avg
    ensures SizeFactor(smaller, avg) <= SizeFactor(size, avg)
    ensures SizeFactor(size, avg) > 1.0 <==> 3.0 * size > 4.0 * avg
    ensures SizeFactor(size, avg) < 1.0 <==> 3.0 * size < 2.0 * avg
  {
  }

  function SpeedScore(us: real, avg: real): (r: nat)
    ensures 10 <= r <= 300
  {
    if us * 0.1 > avg then 10 else if us * 0.25 > avg then 25 else if us * 0.5 > avg then 50 else if us * 0.75 > avg then 75
    else if us * 4.0 < avg then 300 else if us * 3.0 < avg then 200 else if us * 2.0 < avg then 150 else 100
  }

  function SizeFactor(size: real, avg: real): (r: real)
    ensures 0.25 <= r <= 3.0
  {
    if size * 0.3 > avg then 3.0 else if size * 0.5 > avg then 2.0 else if size * 0.75 > avg then 1.5
    else if size * 3.0 < avg then 0.25 else if size * 2.0 < avg then 0.5 else if size * 1.5 < avg then 0.75 else 1.0
  }

  /** Multiplication truncates to a whole number. */
  function Scaled(score: nat, factor: real): (r: nat)
    requires factor >= 0.25
    ensures score >= 10 ==> r >= 2
  {
    var p := score as real * factor;
    assert p >= score as real * 0.25;
    p.Floor
  }
}
