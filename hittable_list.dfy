/** The world: a list of spheres and the closest-hit scan over it
    (src/hittables/hittable_list.rs). */
module HittableLists {
  import opened Floats
  import opened Options
  import opened Vectors
  import opened Rays
  import opened Hittables
  import opened Spheres

  /** Every sphere has a nonzero radius, as `Sphere::hit` divides by it. */
  predicate ValidObjects(objects: seq<Sphere>)
  {
    forall i :: 0 <= i < |objects| ==> objects[i].radius != 0.0
  }

  /** The loop state of `HittableList::hit`: `closest_so_far` and `hit_record`. */
  datatype ScanState = ScanState(closest: Bound, record: Option<Hit>)

  /** The loop of `HittableList::hit` run over `objects` in order: each object
      is asked for a hit no farther than the closest one found so far. */
  function Scan(sqrt: real -> real, objects: seq<Sphere>, r: Ray, tMin: real, tMax: Bound): (st: ScanState)
    requires IsSqrt(sqrt) && r.dir != New() && ValidObjects(objects)
    ensures st.closest == if st.record.Some? then Finite(st.record.value.t) else tMax
    ensures st.record.Some? ==> InRange(st.record.value.t, tMin, tMax)
    decreases |objects|
  {
    if |objects| == 0 then ScanState(tMax, None)
    else
      var prev := Scan(sqrt, objects[..|objects| - 1], r, tMin, tMax);
      match SphereHit(sqrt, objects[|objects| - 1], r, tMin, prev.closest)
      case Some(rec) => ScanState(Finite(rec.t), Some(rec))
      case None => prev
  }

  /** The value `HittableList::hit` returns: when there is one, a record
      within `[t_min, t_max]`. */
  function ClosestHit(sqrt: real -> real, objects: seq<Sphere>, r: Ray, tMin: real, tMax: Bound): (h: Option<Hit>)
    requires IsSqrt(sqrt) && r.dir != New() && ValidObjects(objects)
    ensures h.Some? ==> InRange(h.value.t, tMin, tMax)
  {
    Scan(sqrt, objects, r, tMin, tMax).record
  }

  /** What each object alone reports over the whole interval, in order. */
  function OwnHits(sqrt: real -> real, objects: seq<Sphere>, r: Ray, tMin: real, tMax: Bound): (hs: seq<Option<Hit>>)
    requires IsSqrt(sqrt) && r.dir != New() && ValidObjects(objects)
    ensures |hs| == |objects|
    ensures forall j :: 0 <= j < |objects| ==> hs[j] == SphereHit(sqrt, objects[j], r, tMin, tMax)
    decreases |objects|
  {
    if |objects| == 0 then []
    else OwnHits(sqrt, objects[..|objects| - 1], r, tMin, tMax) + [SphereHit(sqrt, objects[|objects| - 1], r, tMin, tMax)]
  }

  /** No entry of `hits` is a hit. */
  predicate NoneHit(hits: seq<Option<Hit>>)
  {
    forall j :: 0 <= j < |hits| ==> hits[j].None?
  }

  /** `h` is entry `i` of `hits`, no entry is nearer, and every later entry is
      strictly farther. */
  predicate Nearest(hits: seq<Option<Hit>>, h: Hit, i: nat)
  {
    i < |hits| && hits[i] == Some(h) &&
    (forall j :: 0 <= j < |hits| && hits[j].Some? ==> h.t <= hits[j].value.t) &&
    (forall j :: i < j < |hits| && hits[j].Some? ==> h.t < hits[j].value.t)
  }

  /** No object reports a hit on its own. */
  predicate NoHits(sqrt: real -> real, objects: seq<Sphere>, r: Ray, tMin: real, tMax: Bound)
    requires IsSqrt(sqrt) && r.dir != New() && ValidObjects(objects)
  {
    NoneHit(OwnHits(sqrt, objects, r, tMin, tMax))
  }

  /** `h` is object `i`'s own hit, no object reports a nearer one, and every
      later object's own hit is strictly farther. */
  predicate Winner(sqrt: real -> real, objects: seq<Sphere>, r: Ray, tMin: real, tMax: Bound, h: Hit, i: nat)
    requires IsSqrt(sqrt) && r.dir != New() && ValidObjects(objects)
  {
    Nearest(OwnHits(sqrt, objects, r, tMin, tMax), h, i)
  }

  /** The scan returns the hit of one of the objects, and it is a closest one:
      no object reports a nearer hit, and every later object's own hit is
      strictly farther (on a tie the later object wins).  It returns nothing
      exactly when no object is hit at all. */
  lemma {:induction false} ClosestHitIsNearest(sqrt: real -> real, objects: seq<Sphere>, r: Ray, tMin: real, tMax: Bound)
    requires IsSqrt(sqrt) && r.dir != New() && ValidObjects(objects)
    ensures ClosestHit(sqrt, objects, r, tMin, tMax).None? <==> NoHits(sqrt, objects, r, tMin, tMax)
    ensures ClosestHit(sqrt, objects, r, tMin, tMax).Some? ==>
      exists i: nat :: Winner(sqrt, objects, r, tMin, tMax, ClosestHit(sqrt, objects, r, tMin, tMax).value, i)
    decreases |objects|
  {
    if |objects| > 0 {
      var n := |objects| - 1;
      var prefix := objects[..n];
      ClosestHitIsNearest(sqrt, prefix, r, tMin, tMax);
      ScanStep(sqrt, objects, prefix, r, tMin, tMax);
    }
  }

  /** One step of the scan: what holds of the prefix before the last object
      carries over to the whole list. */
  lemma ScanStep(sqrt: real -> real, objects: seq<Sphere>, prefix: seq<Sphere>, r: Ray, tMin: real, tMax: Bound)
    requires IsSqrt(sqrt) && r.dir != New() && ValidObjects(objects) && |objects| > 0
    requires prefix == objects[..|objects| - 1]
    requires (ClosestHit(sqrt, prefix, r, tMin, tMax).None? <==> NoHits(sqrt, prefix, r, tMin, tMax)) &&
      (ClosestHit(sqrt, prefix, r, tMin, tMax).Some? ==>
         exists i: nat :: Winner(sqrt, prefix, r, tMin, tMax, ClosestHit(sqrt, prefix, r, tMin, tMax).value, i))
    ensures ClosestHit(sqrt, objects, r, tMin, tMax).None? <==> NoHits(sqrt, objects, r, tMin, tMax)
    ensures ClosestHit(sqrt, objects, r, tMin, tMax).Some? ==>
      exists i: nat :: Winner(sqrt, objects, r, tMin, tMax, ClosestHit(sqrt, objects, r, tMin, tMax).value, i)
  {
    var n := |objects| - 1;
    var prev := Scan(sqrt, prefix, r, tMin, tMax);
    var res := ClosestHit(sqrt, objects, r, tMin, tMax);
    var hits := OwnHits(sqrt, objects, r, tMin, tMax);
    assert hits[..n] == OwnHits(sqrt, prefix, r, tMin, tMax);
    ScanLast(sqrt, objects, r, tMin, tMax);
    if prev.record.None? {
      assert res == hits[n];
      FirstHit(hits);
      assert res.Some? ==> Winner(sqrt, objects, r, tMin, tMax, res.value, n);
    } else {
      var g := prev.record.value;
      var i: nat :| Nearest(hits[..n], g, i);
      if hits[n].Some? && hits[n].value.t <= g.t {
        assert res == hits[n];
        NewWinner(hits, g, i);
        assert Winner(sqrt, objects, r, tMin, tMax, res.value, n);
      } else {
        assert res == Some(g);
        KeptWinner(hits, g, i);
        assert Winner(sqrt, objects, r, tMin, tMax, res.value, i);
      }
    }
  }

  /** Before the last entry nothing was hit: the last entry, if a hit, is the
      nearest. */
  lemma FirstHit(hits: seq<Option<Hit>>)
    requires |hits| > 0 && NoneHit(hits[..|hits| - 1])
    ensures hits[|hits| - 1].None? <==> NoneHit(hits)
    ensures hits[|hits| - 1].Some? ==> Nearest(hits, hits[|hits| - 1].value, |hits| - 1)
  {
    var n := |hits| - 1;
    assert forall j :: 0 <= j < n ==> hits[..n][j] == hits[j];
  }

  /** The last entry is no farther than the prefix's nearest: it becomes the
      nearest. */
  lemma NewWinner(hits: seq<Option<Hit>>, g: Hit, i: nat)
    requires |hits| > 0 && Nearest(hits[..|hits| - 1], g, i)
    requires hits[|hits| - 1].Some? && hits[|hits| - 1].value.t <= g.t
    ensures Nearest(hits, hits[|hits| - 1].value, |hits| - 1)
  {
    var n := |hits| - 1;
    assert forall j :: 0 <= j < n ==> hits[..n][j] == hits[j];
  }

  /** The last entry is missing or farther than the prefix's nearest: the
      nearest stays. */
  lemma KeptWinner(hits: seq<Option<Hit>>, g: Hit, i: nat)
    requires |hits| > 0 && Nearest(hits[..|hits| - 1], g, i)
    requires !(hits[|hits| - 1].Some? && hits[|hits| - 1].value.t <= g.t)
    ensures Nearest(hits, g, i)
  {
    var n := |hits| - 1;
    assert forall j :: 0 <= j < n ==> hits[..n][j] == hits[j];
  }

  /** The last object replaces the record kept so far exactly when its own
      hit is no farther than that record. */
  lemma ScanLast(sqrt: real -> real, objects: seq<Sphere>, r: Ray, tMin: real, tMax: Bound)
    requires IsSqrt(sqrt) && r.dir != New() && ValidObjects(objects) && |objects| > 0
    ensures var prev := Scan(sqrt, objects[..|objects| - 1], r, tMin, tMax);
      var own := SphereHit(sqrt, objects[|objects| - 1], r, tMin, tMax);
      ClosestHit(sqrt, objects, r, tMin, tMax) ==
        if own.Some? && !Exceeds(prev.closest, own.value.t) then own else prev.record
  {
    var n := |objects| - 1;
    var prev := Scan(sqrt, objects[..n], r, tMin, tMax);
    SphereHitShrink(sqrt, objects[n], r, tMin, prev.closest, tMax);
  }

  /** With a valid world the scan's record is a genuine sphere hit: on the
      surface of the object that produced it, with a unit normal. */
  lemma ClosestHitOnSurface(sqrt: real -> real, objects: seq<Sphere>, r: Ray, tMin: real, tMax: Bound)
    requires IsSqrt(sqrt) && r.dir != New() && ValidObjects(objects)
    ensures var res := ClosestHit(sqrt, objects, r, tMin, tMax);
      res.Some? ==> (LengthSquared(res.value.normal) == 1.0 &&
        exists i :: 0 <= i < |objects| && res.value.mat == objects[i].mat && OnSphere(objects[i], res.value.p))
  {
    var res := ClosestHit(sqrt, objects, r, tMin, tMax);
    ClosestHitIsNearest(sqrt, objects, r, tMin, tMax);
    if res.Some? {
      var i: nat :| Winner(sqrt, objects, r, tMin, tMax, res.value, i);
      SphereHitOnSurface(sqrt, objects[i], r, tMin, tMax);
    }
  }

  /** `closest_so_far` never increases: after the whole scan it is no larger
      than after any prefix, and in particular no larger than `t_max`. */
  lemma {:induction false} ClosestNeverIncreases(sqrt: real -> real, objects: seq<Sphere>, r: Ray, tMin: real, tMax: Bound, k: nat)
    requires IsSqrt(sqrt) && r.dir != New() && ValidObjects(objects) && k <= |objects|
    ensures AtMost(Scan(sqrt, objects, r, tMin, tMax).closest, Scan(sqrt, objects[..k], r, tMin, tMax).closest)
    ensures AtMost(Scan(sqrt, objects, r, tMin, tMax).closest, tMax)
    decreases |objects|
  {
    if |objects| == 0 {
      assert objects[..k] == objects;
    } else {
      var n := |objects| - 1;
      var prefix := objects[..n];
      var prev := Scan(sqrt, prefix, r, tMin, tMax);
      var last := Scan(sqrt, objects, r, tMin, tMax);
      assert AtMost(last.closest, prev.closest);
      if k == |objects| {
        assert objects[..k] == objects;
      } else {
        assert prefix[..k] == objects[..k];
        ClosestNeverIncreases(sqrt, prefix, r, tMin, tMax, k);
      }
      ClosestNeverIncreases(sqrt, prefix, r, tMin, tMax, 0);
    }
  }

  /** The value of an optional record. */
  function RecordValue(rec: Option<HitRecord>): Option<Hit>
    reads if rec.Some? then {rec.value} else {}
  {
    match rec
    case Some(h) => Some(h.Value())
    case None => None
  }

  /** `HittableList`: a growable vector of objects. */
  class HittableList {
    var objects: seq<Sphere>

    /** `HittableList::new`: the empty world. */
    constructor ()
      ensures objects == []
    {
      objects := [];
    }

    /** `clear`: removes every object. */
    method Clear()
      modifies this
      ensures objects == []
    {
      objects := [];
    }

    /** `add`: appends one object at the end. */
    method Add(hittable: Sphere)
      modifies this
      ensures objects == old(objects) + [hittable]
    {
      objects := objects + [hittable];
    }

    /** `hit`: scans the objects in order, shrinking `closest_so_far` to each
        hit found, and returns the last record kept. */
    method Hit(sqrt: real -> real, r: Ray, tMin: real, tMax: Bound) returns (rec: Option<HitRecord>)
      requires IsSqrt(sqrt) && r.dir != New() && ValidObjects(objects)
      ensures RecordValue(rec) == ClosestHit(sqrt, objects, r, tMin, tMax)
      ensures rec.Some? ==> fresh(rec.value)
    {
      var hitRecord: Option<HitRecord> := None;
      var closestSoFar := tMax;
      var i := 0;
      while i < |objects|
        invariant 0 <= i <= |objects|
        invariant Scan(sqrt, objects[..i], r, tMin, tMax) == ScanState(closestSoFar, RecordValue(hitRecord))
        invariant hitRecord.Some? ==> fresh(hitRecord.value)
      {
        assert objects[..i + 1][..i] == objects[..i];
        var objectRecord := objects[i].Hit(sqrt, r, tMin, closestSoFar);
        if objectRecord.Some? {
          closestSoFar := Finite(objectRecord.value.t);
          hitRecord := objectRecord;
        }
        i := i + 1;
      }
      assert objects[..i] == objects;
      return hitRecord;
    }
  }
}
