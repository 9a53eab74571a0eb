/// The cutoff recommendation at the end of a run (Topsicle/main.py,
/// analysis_run, and Topsicle/allsteps.py, fit_quadratic_and_find_vertex).
/// For a k-mer with at least three telomere lengths, a quadratic fit of
/// length against TRC gives a vertex; the vertex is clamped into a usable
/// cutoff, and the lengths of the reads whose TRC reaches it are summarised
/// by their median. The least-squares fit itself is an input function.
module Calibration {
  import opened Wrappers

  // ---- The vertex of the fitted parabola --------------------------------------

  /** a*t^2 + b*t + c */
  function Quadratic(a: real, b: real, c: real, t: real): real {
    a * t * t + b * t + c
  }

  /** fit_quadratic_and_find_vertex's vertex from the coefficients (a, b, c): (x, y). */
  function Vertex(a: real, b: real, c: real): (real, real)
    requires a != 0.0
  {
    var x := -b / (2.0 * a);
    (x, a * x * x + b * x + c)
  }

  /**
   * The vertex is the stationary point of the parabola and y its value
   * there: the derivative 2*a*x + b vanishes, and every other value differs
   * from y by a*(t - x)^2, so y is the minimum when a > 0 and the maximum
   * when a < 0.
   */
  lemma VertexSpec(a: real, b: real, c: real, t: real)
    requires a != 0.0
    ensures var (x, y) := Vertex(a, b, c);
      && 2.0 * a * x + b == 0.0
      && y == Quadratic(a, b, c, x)
      && Quadratic(a, b, c, t) - y == a * (t - x) * (t - x)
      && (a > 0.0 ==> Quadratic(a, b, c, t) >= y)
      && (a < 0.0 ==> Quadratic(a, b, c, t) <= y)
  {
    var (x, y) := Vertex(a, b, c);
    assert 2.0 * a * x == -b;
    assert b == -2.0 * a * x;
    calc {
      Quadratic(a, b, c, t) - y;
      a * t * t + b * t - a * x * x - b * x;
      a * t * t - 2.0 * a * x * t - a * x * x + 2.0 * a * x * x;
      a * (t - x) * (t - x);
    }
    var d := (t - x) * (t - x);
    assert d >= 0.0;
    assert a * (t - x) * (t - x) == a * d;
  }

  // ---- The clamp on the vertex ----------------------------------------------

  /** The first rule: a vertex above the largest TRC is replaced by the median TRC when it is below 1, else by 0.9. */
  function AboveMaxRule(vertex: real, maxTrc: real, medianTrc: real): real {
    if vertex > maxTrc then (if medianTrc < 1.0 then medianTrc else 0.9) else vertex
  }

  /** The second rule, on the value the first one left: below 0.4 and below the input cutoff, take the input cutoff. */
  function BelowFloorRule(vertex: real, inputTrc: real): real {
    if vertex < 0.4 && vertex < inputTrc then inputTrc else vertex
  }

  /** The recommended cutoff: the two rules in the source's order. */
  function ClampVertex(vertex: real, maxTrc: real, medianTrc: real, inputTrc: real): real {
    BelowFloorRule(AboveMaxRule(vertex, maxTrc, medianTrc), inputTrc)
  }

  function Min(a: real, b: real): real {
    if a <= b then a else b
  }

  /**
   * The recommended cutoff is never below min(0.4, inputTrc); it is the
   * vertex itself when that lies in [0.4, maxTrc]; and it is not above
   * maxTrc unless the fallback 0.9 or the input cutoff was taken, provided
   * the median does not pass the maximum.
   */
  lemma ClampVertexSpec(vertex: real, maxTrc: real, medianTrc: real, inputTrc: real)
    ensures var v := ClampVertex(vertex, maxTrc, medianTrc, inputTrc);
      && v >= Min(0.4, inputTrc)
      && (0.4 <= vertex <= maxTrc ==> v == vertex)
      && (v == vertex || v == medianTrc || v == 0.9 || v == inputTrc)
      && (medianTrc <= maxTrc && v != 0.9 && v != inputTrc ==> v <= maxTrc)
  {
  }

  /**
   * The second rule sees the first rule's result: a vertex above the largest
   * TRC whose median is below 0.4 ends at the input cutoff when that is
   * larger, not at the median.
   */
  lemma ClampChainExample()
    ensures ClampVertex(2.0, 0.8, 0.3, 0.5) == 0.5
    ensures AboveMaxRule(2.0, 0.8, 0.3) == 0.3
  {
  }

  // ---- max, median and the TRC filter ----------------------------------------

  /** max(xs) */
  function MaxOf(xs: seq<real>): (r: real)
    requires |xs| > 0
    ensures r in xs
    ensures forall i :: 0 <= i < |xs| ==> xs[i] <= r
  {
    if |xs| == 1 then xs[0]
    else
      var m := MaxOf(xs[1..]);
      assert forall i :: 1 <= i < |xs| ==> xs[i] == xs[1..][i - 1];
      if xs[0] >= m then xs[0] else m
  }

  predicate Sorted(s: seq<real>) {
    forall i, j :: 0 <= i < j < |s| ==> s[i] <= s[j]
  }

  /** x inserted into a list before its first element not below x. */
  function Insert(s: seq<real>, x: real): (r: seq<real>)
    ensures |r| == |s| + 1
  {
    if s == [] || x <= s[0] then [x] + s
    else [s[0]] + Insert(s[1..], x)
  }

  /** A value at most every element of a sorted list can go in front of it. */
  lemma ConsSorted(h: real, t: seq<real>)
    requires Sorted(t) && forall y :: y in t ==> h <= y
    ensures Sorted([h] + t)
  {
    var r := [h] + t;
    forall i, j | 0 <= i < j < |r| ensures r[i] <= r[j] {
      assert r[j] == t[j - 1] && t[j - 1] in t;
      if i > 0 {
        assert r[i] == t[i - 1];
      }
    }
  }

  /** Insertion adds exactly x. */
  lemma {:induction false} InsertElements(s: seq<real>, x: real)
    ensures multiset(Insert(s, x)) == multiset(s) + multiset{x}
  {
    if s != [] && !(x <= s[0]) {
      InsertElements(s[1..], x);
      assert s == [s[0]] + s[1..];
    }
  }

  /** Insertion keeps a list sorted and adds exactly x. */
  lemma {:induction false} InsertSpec(s: seq<real>, x: real)
    requires Sorted(s)
    ensures Sorted(Insert(s, x)) && multiset(Insert(s, x)) == multiset(s) + multiset{x}
  {
    InsertElements(s, x);
    if s == [] || x <= s[0] {
      forall y | y in s ensures x <= y {
        var i :| 0 <= i < |s| && s[i] == y;
        assert s[0] <= s[i];
      }
      ConsSorted(x, s);
    } else {
      var t := Insert(s[1..], x);
      assert Sorted(s[1..]) by {
        forall i, j | 0 <= i < j < |s[1..]| ensures s[1..][i] <= s[1..][j] {
          assert s[1..][i] == s[i + 1] && s[1..][j] == s[j + 1];
        }
      }
      InsertSpec(s[1..], x);
      InsertElements(s[1..], x);
      forall y | y in t ensures s[0] <= y {
        assert y in multiset(t);
        if y != x {
          assert y in multiset(s[1..]);
          var i :| 0 <= i < |s[1..]| && s[1..][i] == y;
          assert s[0] <= s[i + 1];
        }
      }
      ConsSorted(s[0], t);
    }
  }

  /** sorted(xs) */
  function SortReals(xs: seq<real>): (r: seq<real>)
    ensures |r| == |xs|
  {
    if xs == [] then [] else Insert(SortReals(xs[1..]), xs[0])
  }

  /** sorted(xs) is sorted and a permutation of xs. */
  lemma {:induction false} SortRealsSpec(xs: seq<real>)
    ensures Sorted(SortReals(xs)) && multiset(SortReals(xs)) == multiset(xs)
  {
    if xs != [] {
      SortRealsSpec(xs[1..]);
      InsertSpec(SortReals(xs[1..]), xs[0]);
      assert xs == [xs[0]] + xs[1..];
    }
  }

  /** np.median: the middle of the sorted values, or the mean of the two middle ones. */
  function Median(xs: seq<real>): real
    requires |xs| > 0
  {
    var s := SortReals(xs);
    var n := |s|;
    if n % 2 == 1 then s[n / 2] else (s[n / 2 - 1] + s[n / 2]) / 2.0
  }

  /** The median lies between the smallest and the largest value: some value is at most it, and none passes max(xs). */
  lemma MedianBounds(xs: seq<real>)
    requires |xs| > 0
    ensures Median(xs) <= MaxOf(xs)
    ensures exists i :: 0 <= i < |xs| && xs[i] <= Median(xs)
  {
    var s := SortReals(xs);
    SortRealsSpec(xs);
    var n := |s|;
    var lo := if n % 2 == 1 then n / 2 else n / 2 - 1;
    assert s[lo] <= Median(xs) <= s[n / 2];
    assert s[lo] in multiset(xs) && s[n / 2] in multiset(xs);
    assert s[n / 2] in xs && s[lo] in xs;
    var i :| 0 <= i < |xs| && xs[i] == s[lo];
    var j :| 0 <= j < |xs| && xs[j] == s[n / 2];
  }

  /** [telo for trc, telo in zip(trcs, telos) if trc >= v] */
  function FilterByTrc(trcs: seq<real>, telos: seq<real>, v: real): seq<real> {
    if trcs == [] || telos == [] then []
    else (if trcs[0] >= v then [telos[0]] else []) + FilterByTrc(trcs[1..], telos[1..], v)
  }

  /**
   * The filter keeps exactly the lengths whose TRC reaches v, pairing the
   * i-th TRC with the i-th length as zip does, and keeps their order:
   * filtering a concatenation filters each part.
   */
  lemma {:induction false} FilterByTrcSpec(trcs: seq<real>, telos: seq<real>, v: real)
    ensures var r := FilterByTrc(trcs, telos, v);
      && |r| <= |telos|
      && (forall t :: t in r ==> exists i :: 0 <= i < |trcs| && i < |telos| && trcs[i] >= v && telos[i] == t)
      && (forall i :: 0 <= i < |trcs| && i < |telos| && trcs[i] >= v ==> telos[i] in r)
  {
    if trcs != [] && telos != [] {
      FilterByTrcSpec(trcs[1..], telos[1..], v);
      var r := FilterByTrc(trcs, telos, v);
      var rest := FilterByTrc(trcs[1..], telos[1..], v);
      forall t | t in r ensures exists i :: 0 <= i < |trcs| && i < |telos| && trcs[i] >= v && telos[i] == t {
        if t in rest {
          var i :| 0 <= i < |trcs[1..]| && i < |telos[1..]| && trcs[1..][i] >= v && telos[1..][i] == t;
          assert trcs[i + 1] >= v && telos[i + 1] == t;
        }
      }
      forall i | 0 <= i < |trcs| && i < |telos| && trcs[i] >= v ensures telos[i] in r {
        if i > 0 {
          assert trcs[1..][i - 1] == trcs[i] && telos[1..][i - 1] == telos[i];
        }
      }
    }
  }

  /** The filter distributes over concatenation of aligned lists, so it keeps the order of the lengths. */
  lemma {:induction false} FilterByTrcAppend(t1: seq<real>, l1: seq<real>, t2: seq<real>, l2: seq<real>, v: real)
    requires |t1| == |l1|
    ensures FilterByTrc(t1 + t2, l1 + l2, v) == FilterByTrc(t1, l1, v) + FilterByTrc(t2, l2, v)
  {
    if t1 != [] {
      assert (t1 + t2)[1..] == t1[1..] + t2 && (l1 + l2)[1..] == l1[1..] + l2;
      FilterByTrcAppend(t1[1..], l1[1..], t2, l2, v);
    } else {
      assert t1 + t2 == t2 && l1 + l2 == l2;
    }
  }

  // ---- The recommendation for one k-mer --------------------------------------

  /** What analysis_run concludes for one k-mer. */
  datatype Recommendation =
    | NotEnoughData
    | Recommended(cutoff: real, filteredMedian: Option<real>)

  /** The error the as-written call to the fit raises. */
  datatype CalibrationError = FitTypeError

  /**
   * The recommendation for one k-mer, with the fit called on the TRC and
   * length lists only; vertexOf is the least-squares fit followed by the
   * vertex formula.
   */
  function Calibrate(trcs: seq<real>, telos: seq<real>, inputTrc: real, vertexOf: (seq<real>, seq<real>) -> real): Recommendation
    requires |trcs| == |telos| > 0
  {
    if |telos| >= 3 then
      var v := ClampVertex(vertexOf(trcs, telos), MaxOf(trcs), Median(trcs), inputTrc);
      var filtered := FilterByTrc(trcs, telos, v);
      Recommended(v, if filtered == [] then None else Some(Median(filtered)))
    else NotEnoughData
  }

  /**
   * The recommendation as the source is written: the fit is called with
   * keyword arguments it does not accept, which raises as soon as a k-mer
   * has three lengths.
   */
  function CalibrateAsWritten(trcs: seq<real>, telos: seq<real>, inputTrc: real): Result<Recommendation, CalibrationError>
    requires |trcs| == |telos| > 0
  {
    if |telos| >= 3 then Err(FitTypeError) else Ok(NotEnoughData)
  }

  /**
   * With three points the as-written run stops with an error, while the
   * corrected one recommends a cutoff that is at least min(0.4, inputTrc)
   * whatever the fit returns.
   */
  lemma CalibrateAsWrittenFails(vertexOf: (seq<real>, seq<real>) -> real)
    ensures CalibrateAsWritten([0.5, 0.6, 0.7], [1000.0, 2000.0, 3000.0], 0.5) == Err(FitTypeError)
    ensures Calibrate([0.5, 0.6, 0.7], [1000.0, 2000.0, 3000.0], 0.5, vertexOf).Recommended?
    ensures Calibrate([0.5, 0.6, 0.7], [1000.0, 2000.0, 3000.0], 0.5, vertexOf).cutoff >= 0.4
  {
    var trcs := [0.5, 0.6, 0.7];
    ClampVertexSpec(vertexOf(trcs, [1000.0, 2000.0, 3000.0]), MaxOf(trcs), Median(trcs), 0.5);
  }

  /**
   * A recommendation is made exactly when there are at least three points;
   * its cutoff is at least min(0.4, inputTrc); the filtered median exists
   * exactly when some read's TRC reaches the cutoff, which is always so
   * when the cutoff is the vertex, the median TRC or anything else not
   * above the largest TRC.
   */
  lemma CalibrateSpec(trcs: seq<real>, telos: seq<real>, inputTrc: real, vertexOf: (seq<real>, seq<real>) -> real)
    requires |trcs| == |telos| > 0
    ensures var r := Calibrate(trcs, telos, inputTrc, vertexOf);
      && (r.Recommended? <==> |telos| >= 3)
      && (r.Recommended? ==>
            && r.cutoff >= Min(0.4, inputTrc)
            && (r.filteredMedian.Some? <==> exists i :: 0 <= i < |trcs| && trcs[i] >= r.cutoff)
            && (r.cutoff <= MaxOf(trcs) ==> r.filteredMedian.Some?)
            && (r.cutoff != 0.9 && r.cutoff != inputTrc ==> r.filteredMedian.Some?))
  {
    if |telos| >= 3 {
      var r := Calibrate(trcs, telos, inputTrc, vertexOf);
      MedianBounds(trcs);
      ClampVertexSpec(vertexOf(trcs, telos), MaxOf(trcs), Median(trcs), inputTrc);
      FilterByTrcSpec(trcs, telos, r.cutoff);
      var filtered := FilterByTrc(trcs, telos, r.cutoff);
      if r.cutoff <= MaxOf(trcs) {
        var i :| 0 <= i < |trcs| && trcs[i] == MaxOf(trcs);
        assert telos[i] in filtered;
      }
      if filtered != [] {
        assert filtered[0] in filtered;
        var i :| 0 <= i < |trcs| && i < |telos| && trcs[i] >= r.cutoff && telos[i] == filtered[0];
      }
    }
  }

  /** The recommendation loop body, with vertex_x reassigned rule by rule as the source does. */
  method CalibratePhrase(trcs: seq<real>, telos: seq<real>, inputTrc: real, vertexOf: (seq<real>, seq<real>) -> real)
    returns (r: Recommendation)
    requires |trcs| == |telos| > 0
    ensures r == Calibrate(trcs, telos, inputTrc, vertexOf)
  {
    if |telos| < 3 {
      return NotEnoughData;
    }
    var maxTrc := MaxOf(trcs);
    var medianTrc := Median(trcs);
    var vertexX := vertexOf(trcs, telos);
    if vertexX > maxTrc {
      if medianTrc < 1.0 {
        vertexX := medianTrc;
      } else {
        vertexX := 0.9;
      }
    }
    if vertexX < 0.4 {
      if vertexX < inputTrc {
        vertexX := inputTrc;
      }
    }
    var filteredTelolen := FilterByTrc(trcs, telos, vertexX);
    if filteredTelolen != [] {
      return Recommended(vertexX, Some(Median(filteredTelolen)));
    }
    return Recommended(vertexX, None);
  }
}
