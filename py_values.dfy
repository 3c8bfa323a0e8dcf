/** Python values as the pipeline sees them once JSON has been parsed, and the
    exceptions its code can raise. */
module PyValues {

  datatype Option<+T> = None | Some(value: T)

  /** A parsed JSON value. Python's `json` keeps integers and floats apart. */
  datatype Json =
    | JNull
    | JBool(b: bool)
    | JInt(i: int)
    | JFloat(f: real)
    | JStr(s: string)
    | JArr(elems: seq<Json>)
    | JObj(fields: map<string, Json>)

  /** The exceptions the modelled code can raise (and does not catch). */
  datatype PyError =
    | AttributeError
    | TypeError
    | KeyError(key: string)
    | ClassifierError

  /** The outcome of a Python call: a value, or an exception that escapes it. */
  datatype Result<+T> = Ok(value: T) | Raised(error: PyError)

  /** Python's `bool(x)` for a JSON value. */
  predicate Truthy(j: Json)
  {
    match j
    case JNull => false
    case JBool(b) => b
    case JInt(i) => i != 0
    case JFloat(f) => f != 0.0
    case JStr(s) => s != ""
    case JArr(xs) => xs != []
    case JObj(m) => m != map[]
  }

  /** Python's `d.get(key, default)`. */
  function Get(d: map<string, Json>, key: string, default: Json): Json
  {
    if key in d then d[key] else default
  }

  /** A Python loop that applies `step` to each item in order and appends the
      result, where the first item whose step raises ends the loop with that
      exception. */
  function MapRaising<A, B>(items: seq<A>, step: A -> Result<B>): Result<seq<B>>
  {
    if items == [] then Ok([])
    else
      match MapRaising(items[..|items| - 1], step)
      case Raised(e) => Raised(e)
      case Ok(done) =>
        match step(items[|items| - 1])
        case Raised(e) => Raised(e)
        case Ok(x) => Ok(done + [x])
  }

  /** The loop finishes exactly when no item raises. */
  lemma {:induction false} MapRaisingOk<A, B>(items: seq<A>, step: A -> Result<B>)
    ensures MapRaising(items, step).Ok? <==> forall i :: 0 <= i < |items| ==> step(items[i]).Ok?
  {
    if items != [] {
      var n := |items| - 1;
      MapRaisingOk(items[..n], step);
      assert forall i :: 0 <= i < n ==> items[..n][i] == items[i];
    }
  }

  /** A finished loop holds one result per item, result `i` coming from item `i`. */
  lemma {:induction false} MapRaisingValues<A, B>(items: seq<A>, step: A -> Result<B>)
    requires MapRaising(items, step).Ok?
    ensures |MapRaising(items, step).value| == |items|
    ensures forall i :: 0 <= i < |items| ==> step(items[i]).Ok? && MapRaising(items, step).value[i] == step(items[i]).value
  {
    if items != [] {
      var n := |items| - 1;
      MapRaisingValues(items[..n], step);
      assert forall i :: 0 <= i < n ==> items[..n][i] == items[i];
    }
  }

  /** A loop that raises raises the exception of the first item whose step
      raises. */
  lemma {:induction false} MapRaisingFirstError<A, B>(items: seq<A>, step: A -> Result<B>)
    requires MapRaising(items, step).Raised?
    ensures exists k :: && 0 <= k < |items|
                        && (forall i :: 0 <= i < k ==> step(items[i]).Ok?)
                        && step(items[k]) == Raised(MapRaising(items, step).error)
  {
    var n := |items| - 1;
    var front := items[..n];
    if MapRaising(front, step).Raised? {
      MapRaisingFirstError(front, step);
      var k :| 0 <= k < |front| && (forall i :: 0 <= i < k ==> step(front[i]).Ok?)
               && step(front[k]) == Raised(MapRaising(front, step).error);
      assert forall i :: 0 <= i <= k ==> front[i] == items[i];
    } else {
      MapRaisingOk(front, step);
      assert forall i :: 0 <= i < n ==> front[i] == items[i];
    }
  }

  /** Items after the one that raises are never looked at: once a prefix
      raises, the whole run raises the same way. */
  lemma {:induction false} MapRaisingStopsAtError<A, B>(items: seq<A>, n: nat, step: A -> Result<B>)
    requires n <= |items| && MapRaising(items[..n], step).Raised?
    ensures MapRaising(items, step) == MapRaising(items[..n], step)
    decreases |items|
  {
    if n == |items| {
      assert items[..n] == items;
    } else {
      var front := items[..|items| - 1];
      assert front[..n] == items[..n];
      MapRaisingStopsAtError(front, n, step);
    }
  }

  /** The values `f` gives for the items, in order, skipping `None`: a loop
      that appends only when there is something to append. */
  function FilterMap<A, B>(items: seq<A>, f: A -> Option<B>): seq<B>
  {
    if items == [] then []
    else
      var front := FilterMap(items[..|items| - 1], f);
      match f(items[|items| - 1])
      case None => front
      case Some(x) => front + [x]
  }

  /** Items are handled one at a time: two runs of items give what each gives, in order. */
  lemma {:induction false} FilterMapAppend<A, B>(a: seq<A>, b: seq<A>, f: A -> Option<B>)
    ensures FilterMap(a + b, f) == FilterMap(a, f) + FilterMap(b, f)
    decreases |b|
  {
    if b == [] {
      assert a + b == a;
    } else {
      var n := |b| - 1;
      assert (a + b)[..|a + b| - 1] == a + b[..n];
      FilterMapAppend(a, b[..n], f);
    }
  }

  /** Each item gives at most one value, and exactly one when `f` never says `None`. */
  lemma {:induction false} FilterMapCount<A, B>(items: seq<A>, f: A -> Option<B>)
    ensures |FilterMap(items, f)| <= |items|
    ensures (forall i :: 0 <= i < |items| ==> f(items[i]).Some?) ==> |FilterMap(items, f)| == |items|
  {
    if items != [] {
      var n := |items| - 1;
      FilterMapCount(items[..n], f);
      assert forall i :: 0 <= i < n ==> items[..n][i] == items[i];
    }
  }

  /** A property every value given by `f` has, every value in the result has. */
  lemma {:induction false} FilterMapKeeps<A, B>(items: seq<A>, f: A -> Option<B>, p: B -> bool)
    requires forall i :: 0 <= i < |items| ==> f(items[i]).Some? ==> p(f(items[i]).value)
    ensures forall k :: 0 <= k < |FilterMap(items, f)| ==> p(FilterMap(items, f)[k])
  {
    if items != [] {
      var n := |items| - 1;
      assert forall i :: 0 <= i < n ==> items[..n][i] == items[i];
      FilterMapKeeps(items[..n], f, p);
    }
  }

  /** Python's `round(x, 3)` on the exact value: to the nearest thousandth,
      halves to the even neighbour. */
  function Round3(x: real): real
  {
    Thousandths(x) as real / 1000.0
  }

  /** `x * 1000` rounded to the nearest integer, ties to the even one. */
  function Thousandths(x: real): int
  {
    var scaled := x * 1000.0;
    var down := scaled.Floor;
    var frac := scaled - down as real;
    if frac > 0.5 then down + 1
    else if frac < 0.5 then down
    else if down % 2 == 0 then down else down + 1
  }

  /** The nearest integer is at most one half away. */
  lemma ThousandthsClose(x: real)
    ensures -0.5 <= Thousandths(x) as real - x * 1000.0 <= 0.5
  {
  }

  /** A whole number of thousandths is its own rounding. */
  lemma ThousandthsExact(n: int)
    ensures Thousandths(n as real / 1000.0) == n
  {
    assert (n as real / 1000.0) * 1000.0 == n as real;
  }

  /** Rounding moves a value by at most half a thousandth, and rounding twice
      is rounding once. */
  lemma Round3Close(x: real)
    ensures -0.0005 <= Round3(x) - x <= 0.0005
    ensures Round3(Round3(x)) == Round3(x)
  {
    ThousandthsClose(x);
    ThousandthsExact(Thousandths(x));
    var d := Thousandths(x) as real - x * 1000.0;
    assert Round3(x) - x == d / 1000.0;
  }

  /** Halves go to the even neighbour, so rounding commutes with negation. */
  lemma ThousandthsNegate(x: real)
    ensures Thousandths(-x) == -Thousandths(x)
  {
    var y := x * 1000.0;
    var down := y.Floor;
    assert (-x) * 1000.0 == -y;
    if down as real == y {
      assert (-y).Floor == -down;
    } else {
      assert (-y).Floor == -down - 1;
      assert -y - (-down - 1) as real == 1.0 - (y - down as real);
      assert (-down - 1) % 2 == 0 <==> down % 2 != 0;
    }
  }

  /** `round(-x, 3) == -round(x, 3)`. */
  lemma Round3Negate(x: real)
    ensures Round3(-x) == -Round3(x)
  {
    ThousandthsNegate(x);
  }

  /** Rounding keeps a value within [-1, 1] in that interval. */
  lemma Round3WithinUnit(x: real)
    requires -1.0 <= x <= 1.0
    ensures -1.0 <= Round3(x) <= 1.0
  {
    ThousandthsClose(x);
    assert -1000 <= Thousandths(x) <= 1000;
  }

  /** Rounding keeps a value within [0, 1] in that interval. */
  lemma Round3UnitInterval(x: real)
    requires 0.0 <= x <= 1.0
    ensures 0.0 <= Round3(x) <= 1.0
  {
    ThousandthsClose(x);
    assert 0 <= Thousandths(x) <= 1000;
  }
}
