/**
 * Hit records, face orientation and the closest-hit scan over a list of
 * objects (src/hittable.rs). A `dyn Hittable` object is modelled by its `hit`
 * method alone: a total function from a ray and a parameter range to an
 * optional record.
 */
module Hittables {
  import opened Options
  import opened Vector3
  import opened Rays
  import opened Materials

  /**
   * `HitRecord`. The record as declared in src/hittable.rs:4-9 has no material,
   * but `scatter` reads `rec.material` (src/material.rs:38), so the field is
   * added here.
   */
  datatype HitRecord = HitRecord(p: Vec3, normal: Vec3, t: real, frontFace: bool, material: Material)

  /** `HitRecord::default()`: every field at its default. */
  function DefaultRecord(): (rec: HitRecord)
    ensures rec.p == Zero && rec.normal == Zero && rec.t == 0.0 && !rec.frontFace
    ensures rec.material == DefaultMaterial()
  {
    HitRecord(Zero, Zero, 0.0, false, DefaultMaterial())
  }

  /**
   * `HitRecord::set_face_normal`: the record seen from the ray. The face is a
   * front face exactly when the ray runs against the outward normal; the stored
   * normal is the outward normal or its opposite, whichever opposes the ray.
   * Point, parameter and material are left as they were.
   */
  function SetFaceNormal(rec: HitRecord, r: Ray, outward: Vec3): (res: HitRecord)
    ensures res.frontFace <==> Dot(r.dir, outward) < 0.0
    ensures res.frontFace ==> res.normal == outward
    ensures !res.frontFace ==> res.normal == Neg(outward)
    ensures Dot(r.dir, res.normal) <= 0.0
    ensures LengthSquared(res.normal) == LengthSquared(outward)
    ensures res.p == rec.p && res.t == rec.t && res.material == rec.material
  {
    var front := Dot(r.dir, outward) < 0.0;
    rec.(frontFace := front, normal := if front then outward else Neg(outward))
  }

  /** Orienting twice against the same ray and outward normal gives the same record. */
  lemma SetFaceNormalIdempotent(rec: HitRecord, r: Ray, outward: Vec3)
    ensures SetFaceNormal(SetFaceNormal(rec, r, outward), r, outward) == SetFaceNormal(rec, r, outward)
  {
  }

  // ---------------------------------------------------------------------------
  // Objects and the list

  /** `Hittable::hit(&self, r, t_min, t_max)` of one object. */
  type HitFn = (Ray, real, real) -> Option<HitRecord>

  /** An object that only reports hits whose parameter lies in the asked range. */
  ghost predicate RespectsRange(f: HitFn) {
    forall r, lo, hi :: f(r, lo, hi).Some? ==> lo <= f(r, lo, hi).value.t <= hi
  }

  /**
   * An object whose report is stable when the range is narrowed: narrowing
   * the upper end of the range down to (but not below) the reported parameter
   * does not change the report.
   */
  ghost predicate StableWhenNarrowed(f: HitFn) {
    forall r, lo, hi, hi' :: f(r, lo, hi).Some? && f(r, lo, hi).value.t <= hi' <= hi ==> f(r, lo, hi') == f(r, lo, hi)
  }

  ghost predicate AllRespectRange(objs: seq<HitFn>) {
    forall i :: 0 <= i < |objs| ==> RespectsRange(objs[i])
  }

  ghost predicate AllStableWhenNarrowed(objs: seq<HitFn>) {
    forall i :: 0 <= i < |objs| ==> StableWhenNarrowed(objs[i])
  }

  /** `closest_so_far` as a function of the remembered record: `t_max` before any hit, else the record's `t`. */
  function Bound(rec: Option<HitRecord>, tMax: real): real {
    if rec.None? then tMax else rec.value.t
  }

  /**
   * The rest of the scan from a state with remembered record `rec`: each object
   * is asked for a hit on `[tMin, Bound(rec, tMax)]`, and a hit replaces the
   * remembered record (and so lowers the bound).
   */
  function ScanFrom(objs: seq<HitFn>, r: Ray, tMin: real, tMax: real, rec: Option<HitRecord>): Option<HitRecord>
    decreases |objs|
  {
    if |objs| == 0 then rec
    else
      match objs[0](r, tMin, Bound(rec, tMax))
      case Some(h) => ScanFrom(objs[1..], r, tMin, tMax, Some(h))
      case None => ScanFrom(objs[1..], r, tMin, tMax, rec)
  }

  /** What `HittableList::hit` returns for the objects `objs`. */
  function ClosestHit(objs: seq<HitFn>, r: Ray, tMin: real, tMax: real): Option<HitRecord> {
    ScanFrom(objs, r, tMin, tMax, None)
  }

  /** `HittableList`: its `objects` vector is replaced wholesale by `clear` and `add`. */
  class HittableList {
    var objects: seq<HitFn>

    /** `HittableList::default()`. */
    constructor ()
      ensures objects == []
    {
      objects := [];
    }

    /** `HittableList::clear`. */
    method Clear()
      modifies this
      ensures objects == []
    {
      objects := [];
    }

    /** `HittableList::add`: one object appended, the others kept in order. */
    method Add(obj: HitFn)
      modifies this
      ensures objects == old(objects) + [obj]
      ensures |objects| == |old(objects)| + 1 && objects[|objects| - 1] == obj
      ensures forall i :: 0 <= i < |old(objects)| ==> objects[i] == old(objects)[i]
    {
      objects := objects + [obj];
    }

    /**
     * `impl Hittable for HittableList`: every object is asked in order for a
     * hit between `tMin` and the closest hit found so far; each hit becomes the
     * remembered record. Nothing is found exactly when no object reports a hit
     * on the whole range.
     */
    method Hit(r: Ray, tMin: real, tMax: real) returns (res: Option<HitRecord>)
      ensures res == ClosestHit(objects, r, tMin, tMax)
      ensures res.None? <==> forall i :: 0 <= i < |objects| ==> objects[i](r, tMin, tMax).None?
      ensures AllRespectRange(objects) && res.Some? ==> tMin <= res.value.t <= tMax
    {
      var rec: Option<HitRecord> := None;
      var closestSoFar := tMax;
      var i := 0;
      while i < |objects|
        invariant 0 <= i <= |objects|
        invariant closestSoFar == Bound(rec, tMax)
        invariant ScanFrom(objects[i..], r, tMin, tMax, rec) == ClosestHit(objects, r, tMin, tMax)
        invariant AllRespectRange(objects) ==> closestSoFar <= tMax
        invariant AllRespectRange(objects) && rec.Some? ==> tMin <= rec.value.t
      {
        var obj := objects[i];
        assert objects[i..][1..] == objects[i + 1..];
        var temp := obj(r, tMin, closestSoFar);
        if temp.Some? {
          closestSoFar := temp.value.t;
          rec := temp;
        }
        i := i + 1;
      }
      assert objects[i..] == [];
      res := rec;
      ClosestHitNoneIff(objects, r, tMin, tMax);
      if AllRespectRange(objects) {
        ClosestHitInRange(objects, r, tMin, tMax);
      }
    }
  }

  // ---------------------------------------------------------------------------
  // Properties of the scan

  /** Once a record is remembered, the scan never forgets it for nothing. */
  lemma {:induction false} ScanKeepsSome(objs: seq<HitFn>, r: Ray, tMin: real, tMax: real, rec: Option<HitRecord>)
    requires rec.Some?
    ensures ScanFrom(objs, r, tMin, tMax, rec).Some?
    decreases |objs|
  {
    if |objs| > 0 {
      match objs[0](r, tMin, Bound(rec, tMax))
      case Some(h) => ScanKeepsSome(objs[1..], r, tMin, tMax, Some(h));
      case None => ScanKeepsSome(objs[1..], r, tMin, tMax, rec);
    }
  }

  /** Starting with nothing, the scan finds nothing iff no object hits on the whole range. */
  lemma {:induction false} ScanNoneIff(objs: seq<HitFn>, r: Ray, tMin: real, tMax: real)
    ensures ScanFrom(objs, r, tMin, tMax, None).None? <==> forall i :: 0 <= i < |objs| ==> objs[i](r, tMin, tMax).None?
    decreases |objs|
  {
    if |objs| > 0 {
      ScanNoneIff(objs[1..], r, tMin, tMax);
      match objs[0](r, tMin, tMax)
      case Some(h) => ScanKeepsSome(objs[1..], r, tMin, tMax, Some(h));
      case None =>
        assert forall i :: 1 <= i < |objs| ==> objs[i] == objs[1..][i - 1];
    }
  }

  /** `HittableList::hit` is `None` exactly when every object misses on `[tMin, tMax]`. */
  lemma ClosestHitNoneIff(objs: seq<HitFn>, r: Ray, tMin: real, tMax: real)
    ensures ClosestHit(objs, r, tMin, tMax).None? <==> forall i :: 0 <= i < |objs| ==> objs[i](r, tMin, tMax).None?
  {
    ScanNoneIff(objs, r, tMin, tMax);
  }

  /**
   * When every object respects its range, the bound never rises during the
   * scan, and every remembered record stays at or above `tMin`.
   */
  lemma {:induction false} ScanBound(objs: seq<HitFn>, r: Ray, tMin: real, tMax: real, rec: Option<HitRecord>)
    requires AllRespectRange(objs)
    requires rec.Some? ==> tMin <= rec.value.t
    ensures Bound(ScanFrom(objs, r, tMin, tMax, rec), tMax) <= Bound(rec, tMax)
    ensures ScanFrom(objs, r, tMin, tMax, rec).Some? ==> tMin <= ScanFrom(objs, r, tMin, tMax, rec).value.t
    decreases |objs|
  {
    if |objs| > 0 {
      assert RespectsRange(objs[0]);
      assert AllRespectRange(objs[1..]) by {
        forall i | 0 <= i < |objs[1..]| ensures RespectsRange(objs[1..][i]) {
          assert objs[1..][i] == objs[i + 1];
        }
      }
      match objs[0](r, tMin, Bound(rec, tMax))
      case Some(h) => ScanBound(objs[1..], r, tMin, tMax, Some(h));
      case None => ScanBound(objs[1..], r, tMin, tMax, rec);
    }
  }

  /** When every object respects its range, so does the list: a returned record lies in `[tMin, tMax]`. */
  lemma ClosestHitInRange(objs: seq<HitFn>, r: Ray, tMin: real, tMax: real)
    requires AllRespectRange(objs)
    ensures ClosestHit(objs, r, tMin, tMax).Some? ==>
              tMin <= ClosestHit(objs, r, tMin, tMax).value.t <= tMax
  {
    ScanBound(objs, r, tMin, tMax, None);
  }

  /**
   * The record returned is the last hit of the scan: either the scan kept the
   * record it started with and every object missed below the starting bound,
   * or some object `k` produced the result when asked on `[tMin, c]`, where `c`
   * is the bound the scan of the objects before `k` left, and every later
   * object misses on `[tMin, t]` of the result.
   */
  lemma {:induction false} ScanLastHit(objs: seq<HitFn>, r: Ray, tMin: real, tMax: real, rec: Option<HitRecord>)
    ensures var res := ScanFrom(objs, r, tMin, tMax, rec);
            (res == rec && forall j :: 0 <= j < |objs| ==> objs[j](r, tMin, Bound(rec, tMax)).None?) ||
            (res.Some? && exists k :: 0 <= k < |objs| &&
                           objs[k](r, tMin, Bound(ScanFrom(objs[..k], r, tMin, tMax, rec), tMax)) == res &&
                           forall j :: k < j < |objs| ==> objs[j](r, tMin, res.value.t).None?)
    decreases |objs|
  {
    if |objs| > 0 {
      var res := ScanFrom(objs, r, tMin, tMax, rec);
      var rest := objs[1..];
      assert forall j :: 1 <= j < |objs| ==> objs[j] == rest[j - 1];
      match objs[0](r, tMin, Bound(rec, tMax))
      case Some(h) =>
        ScanLastHit(rest, r, tMin, tMax, Some(h));
        if res == Some(h) && forall j :: 0 <= j < |rest| ==> rest[j](r, tMin, h.t).None? {
          assert objs[..0] == [];
          assert objs[0](r, tMin, Bound(ScanFrom(objs[..0], r, tMin, tMax, rec), tMax)) == res;
        } else {
          var k :| 0 <= k < |rest| &&
                   rest[k](r, tMin, Bound(ScanFrom(rest[..k], r, tMin, tMax, Some(h)), tMax)) == res &&
                   forall j :: k < j < |rest| ==> rest[j](r, tMin, res.value.t).None?;
          ScanPrefixStep(objs, r, tMin, tMax, rec, k + 1);
          assert objs[k + 1](r, tMin, Bound(ScanFrom(objs[..k + 1], r, tMin, tMax, rec), tMax)) == res;
        }
      case None =>
        ScanLastHit(rest, r, tMin, tMax, rec);
        if res == rec && forall j :: 0 <= j < |rest| ==> rest[j](r, tMin, Bound(rec, tMax)).None? {
        } else {
          var k :| 0 <= k < |rest| &&
                   rest[k](r, tMin, Bound(ScanFrom(rest[..k], r, tMin, tMax, rec), tMax)) == res &&
                   forall j :: k < j < |rest| ==> rest[j](r, tMin, res.value.t).None?;
          ScanPrefixStep(objs, r, tMin, tMax, rec, k + 1);
          assert objs[k + 1](r, tMin, Bound(ScanFrom(objs[..k + 1], r, tMin, tMax, rec), tMax)) == res;
        }
    }
  }

  /** Scanning a non-empty prefix is the first step followed by a scan of the rest of the prefix. */
  lemma ScanPrefixStep(objs: seq<HitFn>, r: Ray, tMin: real, tMax: real, rec: Option<HitRecord>, m: nat)
    requires 0 < m <= |objs|
    ensures var next := match objs[0](r, tMin, Bound(rec, tMax))
                        case Some(h) => Some(h)
                        case None => rec;
            ScanFrom(objs[..m], r, tMin, tMax, rec) == ScanFrom(objs[1..][..m - 1], r, tMin, tMax, next)
  {
    assert objs[..m][0] == objs[0];
    assert objs[..m][1..] == objs[1..][..m - 1];
  }

  /**
   * `HittableList::hit` returns the record of the last object that hit, asked on
   * `[t_min, closest_so_far]` with the bound left by the objects before it, and
   * every later object missed below it.
   */
  lemma ClosestHitIsLastHit(objs: seq<HitFn>, r: Ray, tMin: real, tMax: real)
    ensures var res := ClosestHit(objs, r, tMin, tMax);
            res.Some? ==> exists k :: 0 <= k < |objs| &&
                            objs[k](r, tMin, Bound(ClosestHit(objs[..k], r, tMin, tMax), tMax)) == res &&
                            forall j :: k < j < |objs| ==> objs[j](r, tMin, res.value.t).None?
  {
    ScanLastHit(objs, r, tMin, tMax, None);
  }

  /**
   * With objects that respect their range and are stable when it is narrowed, the
   * bound at the end of the scan is at or below the parameter of any hit that
   * any object reports on the whole range.
   */
  lemma {:induction false} ScanNearest(objs: seq<HitFn>, r: Ray, tMin: real, tMax: real, rec: Option<HitRecord>)
    requires AllRespectRange(objs) && AllStableWhenNarrowed(objs)
    requires rec.Some? ==> tMin <= rec.value.t <= tMax
    ensures forall i :: 0 <= i < |objs| && objs[i](r, tMin, tMax).Some? ==>
              Bound(ScanFrom(objs, r, tMin, tMax, rec), tMax) <= objs[i](r, tMin, tMax).value.t
    decreases |objs|
  {
    if |objs| > 0 {
      var rest := objs[1..];
      assert forall j :: 1 <= j < |objs| ==> objs[j] == rest[j - 1];
      assert AllRespectRange(rest) && AllStableWhenNarrowed(rest) by {
        forall i | 0 <= i < |rest| ensures RespectsRange(rest[i]) && StableWhenNarrowed(rest[i]) {
          assert rest[i] == objs[i + 1];
        }
      }
      assert RespectsRange(objs[0]) && StableWhenNarrowed(objs[0]);
      var c := Bound(rec, tMax);
      var next := match objs[0](r, tMin, c) case Some(h) => Some(h) case None => rec;
      assert ScanFrom(objs, r, tMin, tMax, rec) == ScanFrom(rest, r, tMin, tMax, next);
      assert next.Some? ==> tMin <= next.value.t <= c;
      ScanNearest(rest, r, tMin, tMax, next);
      ScanBound(rest, r, tMin, tMax, next);
      var final := Bound(ScanFrom(rest, r, tMin, tMax, next), tMax);
      if objs[0](r, tMin, tMax).Some? {
        var h' := objs[0](r, tMin, tMax).value;
        if h'.t <= c {
          assert objs[0](r, tMin, c) == objs[0](r, tMin, tMax);
          assert Bound(next, tMax) == h'.t;
        } else {
          assert Bound(next, tMax) <= c;
        }
        assert final <= h'.t;
      }
    }
  }

  /**
   * With objects that respect their range and are stable when it is narrowed, the
   * list returns a hit at least as near as any hit any object reports on the
   * whole range.
   */
  lemma ClosestHitIsNearest(objs: seq<HitFn>, r: Ray, tMin: real, tMax: real)
    requires AllRespectRange(objs) && AllStableWhenNarrowed(objs)
    ensures forall i :: 0 <= i < |objs| && objs[i](r, tMin, tMax).Some? ==>
              ClosestHit(objs, r, tMin, tMax).Some? &&
              ClosestHit(objs, r, tMin, tMax).value.t <= objs[i](r, tMin, tMax).value.t
  {
    ScanNearest(objs, r, tMin, tMax, None);
    ClosestHitNoneIff(objs, r, tMin, tMax);
  }
}
