/**
 * The rolling-window arithmetic of the acquisition loop, as pure functions:
 * field-wise totals of readings, the mean of one full window, and the means of
 * every complete window of a stream of readings.  Doubles are modelled as
 * `real`, so nothing here says anything about rounding.
 */
module Averaging {
  import opened Bme280

  /** Readings per saved mean. */
  const WindowSize: nat := 10

  /** The three measured quantities, to state facts about each one. */
  datatype Quantity = Temperature | Humidity | Pressure

  function Get(d: SensorData, q: Quantity): real
  {
    match q
    case Temperature => d.temperature
    case Humidity => d.humidity
    case Pressure => d.pressure
  }

  const Zero: SensorData := SensorData(0.0, 0.0, 0.0)

  function Plus(a: SensorData, b: SensorData): SensorData
  {
    SensorData(a.temperature + b.temperature, a.humidity + b.humidity, a.pressure + b.pressure)
  }

  /** Field-wise total of `s`, summed in arrival order. */
  function Total(s: seq<SensorData>): SensorData
    decreases |s|
  {
    if s == [] then Zero else Plus(Total(s[..|s| - 1]), s[|s| - 1])
  }

  /** The triple saved for one full window: each field's total divided by ten. */
  function Mean(w: seq<SensorData>): SensorData
    requires |w| == WindowSize
  {
    var t := Total(w);
    SensorData(t.temperature / 10.0, t.humidity / 10.0, t.pressure / 10.0)
  }

  /** The mean of each complete window of `rs`, in order; a trailing partial window has none. */
  function Means(rs: seq<SensorData>): (ms: seq<SensorData>)
    ensures |ms| == |rs| / WindowSize
    decreases |rs|
  {
    if |rs| < WindowSize then [] else [Mean(rs[..WindowSize])] + Means(rs[WindowSize..])
  }

  /** Totals add up over concatenation. */
  lemma {:induction false} TotalAppend(a: seq<SensorData>, b: seq<SensorData>)
    ensures Total(a + b) == Plus(Total(a), Total(b))
    decreases |b|
  {
    if b == [] {
      assert a + b == a;
    } else {
      var b' := b[..|b| - 1];
      assert (a + b)[..|a + b| - 1] == a + b';
      TotalAppend(a, b');
    }
  }

  /** Appending one reading adds its quantity `q` to the total's. */
  lemma TotalSnoc(s: seq<SensorData>, q: Quantity)
    requires s != []
    ensures Get(Total(s), q) == Get(Total(s[..|s| - 1]), q) + Get(s[|s| - 1], q)
  {
    match q
    case Temperature =>
    case Humidity =>
    case Pressure =>
  }

  /** `x` added up `n` times. */
  function Times(n: nat, x: real): real
  {
    if n == 0 then 0.0 else Times(n - 1, x) + x
  }

  /** Adding `x` up `n` times is multiplying it by `n`. */
  lemma {:induction false} TimesIsProduct(n: nat, x: real)
    ensures Times(n, x) == (n as real) * x
  {
    if n > 0 {
      TimesIsProduct(n - 1, x);
      assert (n as real) * x == ((n - 1) as real) * x + x;
    }
  }

  /** The total of the first `n` readings of `s`, in quantity `q`, unfolded at its last reading. */
  lemma PrefixSnoc(s: seq<SensorData>, n: nat, q: Quantity)
    requires 0 < n <= |s|
    ensures Get(Total(s[..n]), q) == Get(Total(s[..n - 1]), q) + Get(s[n - 1], q)
  {
    var p := s[..n];
    assert p[..n - 1] == s[..n - 1];
    assert p[n - 1] == s[n - 1];
    TotalSnoc(p, q);
  }

  /** If quantity `q` of every reading of `s` is at least `lo`, the total of its first `n` readings is at least `lo` added up n times. */
  lemma {:induction false} PrefixAtLeast(s: seq<SensorData>, n: nat, q: Quantity, lo: real)
    requires n <= |s|
    requires forall i :: 0 <= i < |s| ==> lo <= Get(s[i], q)
    ensures Times(n, lo) <= Get(Total(s[..n]), q)
    decreases n
  {
    if n == 0 {
      assert Get(Total(s[..n]), q) == 0.0 by {
        match q
        case Temperature =>
        case Humidity =>
        case Pressure =>
      }
    } else {
      PrefixAtLeast(s, n - 1, q, lo);
      PrefixSnoc(s, n, q);
    }
  }

  /** If quantity `q` of every reading of `s` is at least `lo`, its total is at least |s| * lo. */
  lemma TotalAtLeast(s: seq<SensorData>, q: Quantity, lo: real)
    requires forall i :: 0 <= i < |s| ==> lo <= Get(s[i], q)
    ensures (|s| as real) * lo <= Get(Total(s), q)
  {
    PrefixAtLeast(s, |s|, q, lo);
    TimesIsProduct(|s|, lo);
    assert s[..|s|] == s;
  }

  /** If quantity `q` of every reading of `s` is at most `hi`, the total of its first `n` readings is at most `hi` added up n times. */
  lemma {:induction false} PrefixAtMost(s: seq<SensorData>, n: nat, q: Quantity, hi: real)
    requires n <= |s|
    requires forall i :: 0 <= i < |s| ==> Get(s[i], q) <= hi
    ensures Get(Total(s[..n]), q) <= Times(n, hi)
    decreases n
  {
    if n == 0 {
      assert Get(Total(s[..n]), q) == 0.0 by {
        match q
        case Temperature =>
        case Humidity =>
        case Pressure =>
      }
    } else {
      PrefixAtMost(s, n - 1, q, hi);
      PrefixSnoc(s, n, q);
    }
  }

  /** If quantity `q` of every reading of `s` is at most `hi`, its total is at most |s| * hi. */
  lemma TotalAtMost(s: seq<SensorData>, q: Quantity, hi: real)
    requires forall i :: 0 <= i < |s| ==> Get(s[i], q) <= hi
    ensures Get(Total(s), q) <= (|s| as real) * hi
  {
    PrefixAtMost(s, |s|, q, hi);
    TimesIsProduct(|s|, hi);
    assert s[..|s|] == s;
  }

  /** A saved mean lies between the smallest and the largest reading of its window, field by field. */
  lemma MeanBounds(w: seq<SensorData>, q: Quantity, lo: real, hi: real)
    requires |w| == WindowSize
    requires forall i :: 0 <= i < |w| ==> lo <= Get(w[i], q) <= hi
    ensures lo <= Get(Mean(w), q) <= hi
  {
    TotalAtLeast(w, q, lo);
    TotalAtMost(w, q, hi);
  }

  /** Ten identical readings average to that reading. */
  lemma MeanOfConstant(w: seq<SensorData>, r: SensorData)
    requires |w| == WindowSize
    requires forall i :: 0 <= i < |w| ==> w[i] == r
    ensures Mean(w) == r
  {
    MeanBounds(w, Temperature, r.temperature, r.temperature);
    MeanBounds(w, Humidity, r.humidity, r.humidity);
    MeanBounds(w, Pressure, r.pressure, r.pressure);
  }

  /** Save `k` is the mean of readings 10k .. 10k+9. */
  lemma {:induction false} MeansAt(rs: seq<SensorData>, k: nat)
    requires k < |rs| / WindowSize
    ensures WindowSize * k + WindowSize <= |rs|
    ensures Means(rs)[k] == Mean(rs[WindowSize * k .. WindowSize * k + WindowSize])
    decreases k
  {
    if k == 0 {
      assert rs[0 .. WindowSize] == rs[..WindowSize];
    } else {
      var rest := rs[WindowSize..];
      MeansAt(rest, k - 1);
      assert rest[WindowSize * (k - 1) .. WindowSize * (k - 1) + WindowSize]
          == rs[WindowSize * k .. WindowSize * k + WindowSize];
    }
  }

  /** A full window at the front is averaged first. */
  lemma MeansCons(w: seq<SensorData>, rest: seq<SensorData>)
    requires |w| == WindowSize
    ensures Means(w + rest) == [Mean(w)] + Means(rest)
  {
    assert (w + rest)[..WindowSize] == w;
    assert (w + rest)[WindowSize..] == rest;
  }

  /** Readings that already fill whole windows are averaged independently of what follows them. */
  lemma {:induction false} MeansAppend(a: seq<SensorData>, b: seq<SensorData>)
    requires |a| % WindowSize == 0
    ensures Means(a + b) == Means(a) + Means(b)
    decreases |a|
  {
    if a == [] {
      assert a + b == b;
    } else {
      var ab, rest := a + b, a[WindowSize..];
      assert |rest| % WindowSize == 0;
      assert ab[..WindowSize] == a[..WindowSize];
      assert ab[WindowSize..] == rest + b;
      MeansAppend(rest, b);
    }
  }

  /** A partial window after whole windows adds no mean. */
  lemma PartialWindowIgnored(a: seq<SensorData>, b: seq<SensorData>)
    requires |a| % WindowSize == 0 && |b| < WindowSize
    ensures Means(a + b) == Means(a)
  {
    MeansAppend(a, b);
  }

  /** Completing a window adds exactly its mean. */
  lemma WindowCompleted(a: seq<SensorData>, w: seq<SensorData>)
    requires |a| % WindowSize == 0 && |w| == WindowSize
    ensures Means(a + w) == Means(a) + [Mean(w)]
  {
    MeansAppend(a, w);
    assert w[..WindowSize] == w && w[WindowSize..] == [];
  }
}
