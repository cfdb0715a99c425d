/** Projecting a spec down to the fields a drift comparison looks at. */
module SpecProjection {
  import opened Json

  type Path = seq<string>

  const MAX_INT64 := 0x7fff_ffff_ffff_ffff
  const MIN_INT64 := -0x8000_0000_0000_0000

  // ---- values -----------------------------------------------------------------------------------------

  /** A floating-point number; `text` is how it prints. */
  datatype Float = Finite(value: real, text: string) | NaN | PositiveInfinity | NegativeInfinity

  /** What an object read from the cluster, or built in memory, may hold. */
  datatype Value =
    | Null
    | Bool(b: bool)
    | Text(s: string)
    | Int64(i: int)
    | OtherInt(i: int)                         // int, int32
    | Floating(f: Float)
    | List(elems: seq<Value>)
    | ObjectList(elems: seq<Value>)            // a list typed as a list of objects
    | Object(fields: Fields)
    | Unsupported(text: string)

  type Fields = map<string, Value>

  function Printed(f: Float): string {
    match f
    case Finite(_, text) => text
    case NaN => "NaN"
    case PositiveInfinity => "+Inf"
    case NegativeInfinity => "-Inf"
  }

  /** Toward zero. */
  function Truncated(r: real): int {
    if r >= 0.0 then r.Floor else -((-r).Floor)
  }

  /**
   A float within the bounds becomes an integer. The upper bound is 2^63 as a float, which is within them; what
   converting exactly that value yields is the platform's, here the smallest integer.
   */
  function FloatNormalized(f: Float): Value {
    if f.Finite? && MIN_INT64 as real <= f.value <= (MAX_INT64 + 1) as real
    then Int64(if f.value == (MAX_INT64 + 1) as real then MIN_INT64 else Truncated(f.value))
    else Text(Printed(f))
  }

  /** The normalizing copy: integers of any width and floats become 64-bit integers, what is unsupported its text. */
  function Normalized(v: Value): Value
    decreases v
  {
    match v
    case Object(fields) => Object(map k | k in fields :: Normalized(fields[k]))
    case List(elems) => List(seq(|elems|, i requires 0 <= i < |elems| => Normalized(elems[i])))
    case ObjectList(elems) => List(seq(|elems|, i requires 0 <= i < |elems| => Normalized(elems[i])))
    case OtherInt(i) => Int64(i)
    case Floating(f) => FloatNormalized(f)
    case Unsupported(text) => Text(text)
    case _ => v
  }

  function AllNormalized(fields: Fields): Fields {
    map k | k in fields :: Normalized(fields[k])
  }

  /** What a normalized value is made of. */
  predicate IsNormal(v: Value)
    decreases v
  {
    match v
    case Object(fields) => forall k | k in fields :: IsNormal(fields[k])
    case List(elems) => forall i | 0 <= i < |elems| :: IsNormal(elems[i])
    case ObjectList(_) => false
    case OtherInt(_) => false
    case Floating(_) => false
    case Unsupported(_) => false
    case _ => true
  }

  /** Normalizing leaves only what JSON has with 64-bit integers, and changes nothing the second time. */
  lemma {:induction false} NormalizedIsNormal(v: Value)
    ensures IsNormal(Normalized(v)) && Normalized(Normalized(v)) == Normalized(v)
    decreases v
  {
    match v
    case Object(fields) =>
      forall k | k in fields ensures IsNormal(Normalized(fields[k])) && Normalized(Normalized(fields[k])) == Normalized(fields[k]) {
        NormalizedIsNormal(fields[k]);
      }
    case List(elems) =>
      forall i | 0 <= i < |elems| ensures IsNormal(Normalized(elems[i])) && Normalized(Normalized(elems[i])) == Normalized(elems[i]) {
        NormalizedIsNormal(elems[i]);
      }
    case ObjectList(elems) =>
      forall i | 0 <= i < |elems| ensures IsNormal(Normalized(elems[i])) && Normalized(Normalized(elems[i])) == Normalized(elems[i]) {
        NormalizedIsNormal(elems[i]);
      }
    case _ =>
  }

  /** The nearest integer on the way to zero. */
  predicate TowardZero(r: real, i: int) {
    if r >= 0.0 then i >= 0 && i as real <= r < (i + 1) as real else i <= 0 && (i - 1) as real < r <= i as real
  }

  /** An integer says the number: that number itself, or what is left of it toward zero; 2^63 overflows. */
  predicate SaysNumber(r: real, i: int) {
    if r == 9223372036854775808.0 then i == MIN_INT64 else TowardZero(r, i)
  }

  /** The copy has the fields and elements of the original, and says each leaf with a 64-bit integer or a text. */
  predicate Copies(v: Value, n: Value)
    decreases v
  {
    match v
    case Object(fields) => n.Object? && n.fields.Keys == fields.Keys && forall k | k in fields :: Copies(fields[k], n.fields[k])
    case List(elems) => n.List? && |n.elems| == |elems| && forall i | 0 <= i < |elems| :: Copies(elems[i], n.elems[i])
    case ObjectList(elems) => n.List? && |n.elems| == |elems| && forall i | 0 <= i < |elems| :: Copies(elems[i], n.elems[i])
    case OtherInt(i) => n == Int64(i)
    case Floating(f) =>
      if f.Finite? && -9223372036854775808.0 <= f.value <= 9223372036854775808.0 then n.Int64? && SaysNumber(f.value, n.i)
      else n == Text(Printed(f))
    case Unsupported(text) => n == Text(text)
    case _ => n == v
  }

  lemma TruncatedExactly(r: real, i: int)
    ensures TowardZero(r, i) <==> i == Truncated(r)
  {
  }

  /** The normalizing copy is the one value that copies the original. */
  lemma {:induction false} NormalizedCopies(v: Value, n: Value)
    ensures Copies(v, n) <==> n == Normalized(v)
    decreases v, 1
  {
    match v
    case Object(fields) =>
      if n.Object? && n.fields.Keys == fields.Keys {
        forall k | k in fields ensures Copies(fields[k], n.fields[k]) <==> n.fields[k] == Normalized(fields[k]) {
          NormalizedCopies(fields[k], n.fields[k]);
        }
        assert n == Normalized(v) <==> n.fields == Normalized(v).fields;
      }
    case List(elems) => ElementsCopy(elems, n, v);
    case ObjectList(elems) => ElementsCopy(elems, n, v);
    case Floating(f) =>
      if f.Finite? && n.Int64? {
        TruncatedExactly(f.value, n.i);
      }
    case _ =>
  }

  lemma {:induction false} ElementsCopy(elems: seq<Value>, n: Value, v: Value)
    requires v == List(elems) || v == ObjectList(elems)
    ensures Copies(v, n) <==> n == Normalized(v)
    decreases v, 0
  {
    if n.List? && |n.elems| == |elems| {
      forall i | 0 <= i < |elems| ensures Copies(elems[i], n.elems[i]) <==> n.elems[i] == Normalized(elems[i]) {
        NormalizedCopies(elems[i], n.elems[i]);
      }
      assert n == Normalized(v) <==> n.elems == Normalized(v).elems;
    }
  }

  // ---- nested fields ----------------------------------------------------------------------------------

  /** Reads a nested field; a missing key, a null or something that is no object on the way is not found. */
  function Field(fields: Fields, p: Path): Option<Value>
    decreases |p|
  {
    if p == [] || p[0] !in fields then None
    else if |p| == 1 then Some(fields[p[0]])
    else if fields[p[0]].Object? then Field(fields[p[0]].fields, p[1..])
    else None
  }

  /** Sets a nested field, creating objects on the way; fails when something on the way is no object. */
  function WithField(fields: Fields, p: Path, v: Value): Option<Fields>
    requires p != []
    decreases |p|
  {
    if |p| == 1 then Some(fields[p[0] := v])
    else if p[0] in fields && !fields[p[0]].Object? then None
    else
      var inner := if p[0] in fields then fields[p[0]].fields else map[];
      match WithField(inner, p[1..], v)
      case None => None
      case Some(changed) => Some(fields[p[0] := Object(changed)])
  }

  predicate Prefix(p: Path, q: Path) {
    p <= q
  }

  predicate Comparable(p: Path, q: Path) {
    Prefix(p, q) || Prefix(q, p)
  }

  lemma ComparableTail(p: Path, q: Path)
    requires p != [] && q != []
    ensures Comparable(p, q) <==> p[0] == q[0] && Comparable(p[1..], q[1..])
  {
    assert p == [p[0]] + p[1..] && q == [q[0]] + q[1..];
  }

  lemma {:induction false} SetGetBelow(fields: Fields, p: Path, v: Value, q: Path)
    requires p != [] && WithField(fields, p, v).Some? && Prefix(p, q)
    ensures Field(WithField(fields, p, v).value, q) ==
      if |q| == |p| then Some(v) else if v.Object? then Field(v.fields, q[|p|..]) else None
    decreases |p|
  {
    if |p| > 1 {
      var inner := if p[0] in fields then fields[p[0]].fields else map[];
      assert Prefix(p[1..], q[1..]) && q[1..][|p| - 1..] == q[|p|..];
      SetGetBelow(inner, p[1..], v, q[1..]);
    }
  }

  lemma {:induction false} SetGetElsewhere(fields: Fields, p: Path, v: Value, q: Path)
    requires p != [] && WithField(fields, p, v).Some? && !Comparable(p, q)
    ensures Field(WithField(fields, p, v).value, q) == Field(fields, q)
    decreases |p|
  {
    assert q != [];
    ComparableTail(p, q);
    if |p| > 1 && p[0] == q[0] {
      var inner := if p[0] in fields then fields[p[0]].fields else map[];
      assert |q| > 1;
      SetGetElsewhere(inner, p[1..], v, q[1..]);
    }
  }

  /** Setting a field to what it is already changes nothing. */
  lemma {:induction false} SetSame(fields: Fields, p: Path, v: Value)
    requires Field(fields, p) == Some(v)
    ensures p != [] && WithField(fields, p, v) == Some(fields)
    decreases |p|
  {
    if |p| > 1 {
      SetSame(fields[p[0]].fields, p[1..], v);
      assert Object(fields[p[0]].fields) == fields[p[0]] && fields[p[0] := fields[p[0]]] == fields;
    } else {
      assert fields[p[0] := fields[p[0]]] == fields;
    }
  }

  lemma {:induction false} NormalizedField(fields: Fields, p: Path)
    ensures Field(AllNormalized(fields), p) == if Field(fields, p).Some? then Some(Normalized(Field(fields, p).value)) else None
    decreases |p|
  {
    if |p| > 1 && p[0] in fields && fields[p[0]].Object? {
      NormalizedField(fields[p[0]].fields, p[1..]);
      assert Normalized(fields[p[0]]) == Object(AllNormalized(fields[p[0]].fields));
    }
  }

  /** A field below a found object is found through it. */
  lemma {:induction false} FieldThrough(fields: Fields, p: Path, q: Path)
    requires p != [] && Prefix(p, q) && Field(fields, p).Some?
    ensures Field(fields, q) ==
      if |q| == |p| then Field(fields, p)
      else if Field(fields, p).value.Object? then Field(Field(fields, p).value.fields, q[|p|..]) else None
    decreases |p|
  {
    if |p| > 1 {
      assert Prefix(p[1..], q[1..]) && q[1..][|p| - 1..] == q[|p|..];
      FieldThrough(fields[p[0]].fields, p[1..], q[1..]);
    }
  }

  // ---- part of a whole --------------------------------------------------------------------------------

  /** The part is the whole, or both are objects and each field of the part is part of the same field of the whole. */
  predicate PartOf(part: Value, whole: Value)
    decreases whole
  {
    part == whole ||
    (part.Object? && whole.Object? && forall k | k in part.fields :: k in whole.fields && PartOf(part.fields[k], whole.fields[k]))
  }

  predicate FieldsPartOf(part: Fields, whole: Fields) {
    forall k | k in part :: k in whole && PartOf(part[k], whole[k])
  }

  /** Copying a field of the whole into a part of it never fails and stays a part. */
  lemma {:induction false} CopyFits(part: Fields, whole: Fields, p: Path, v: Value)
    requires FieldsPartOf(part, whole) && Field(whole, p) == Some(v)
    ensures p != [] && WithField(part, p, v).Some? && FieldsPartOf(WithField(part, p, v).value, whole)
    decreases |p|
  {
    if |p| > 1 {
      var inner := if p[0] in part then part[p[0]].fields else map[];
      CopyFits(inner, whole[p[0]].fields, p[1..], v);
    }
  }

  /** Every leaf of a part is a leaf of the whole. */
  lemma {:induction false} LeavesOfPart(part: Fields, whole: Fields, p: Path)
    requires FieldsPartOf(part, whole) && Field(part, p).Some?
    ensures Field(whole, p).Some?
    ensures !Field(part, p).value.Object? ==> Field(whole, p) == Field(part, p)
    decreases |p|
  {
    assert PartOf(part[p[0]], whole[p[0]]);
    if |p| > 1 {
      LeavesOfPart(part[p[0]].fields, whole[p[0]].fields, p[1..]);
    }
  }

  // ---- the projection ---------------------------------------------------------------------------------

  /** A listed field: its path, or nothing when its text could not be parsed. */
  type Listed = Option<Path>

  predicate Present(spec: Fields, field: Listed) {
    field.Some? && field.value != [] && Field(spec, field.value).Some?
  }

  /** One field added to the projection; nothing is added for a field that is not there. None is an error. */
  function Added(spec: Fields, out: Fields, field: Listed): Option<Fields> {
    if !Present(spec, field) then Some(out)
    else WithField(out, field.value, Normalized(Field(spec, field.value).value))
  }

  ghost predicate ReadsBack(spec: Fields, done: seq<Listed>, out: Fields) {
    forall f | f in done && Present(spec, f) :: Field(out, f.value) == Some(Normalized(Field(spec, f.value).value))
  }

  /** A listed field leads to q or through it. */
  ghost predicate Covered(spec: Fields, done: seq<Listed>, q: Path) {
    exists f :: f in done && Present(spec, f) && Comparable(f.value, q)
  }

  ghost predicate NothingElse(spec: Fields, done: seq<Listed>, out: Fields) {
    forall q {:trigger Field(out, q)} | Field(out, q).Some? :: Covered(spec, done, q)
  }

  /** How far the projection has come: it holds the fields done, part of the normalized spec, and nothing unasked for. */
  ghost predicate Projects(spec: Fields, done: seq<Listed>, out: Fields) {
    FieldsPartOf(out, AllNormalized(spec)) && ReadsBack(spec, done, out) && NothingElse(spec, done, out)
  }

  /** A field that was projected before reads the same after another one is added, however the two overlap. */
  lemma AddedKeeps(spec: Fields, out: Fields, p: Path, q: Path)
    requires p != [] && q != [] && Field(spec, p).Some? && Field(spec, q).Some?
    requires Field(out, q) == Some(Normalized(Field(spec, q).value))
    requires WithField(out, p, Normalized(Field(spec, p).value)).Some?
    ensures Field(WithField(out, p, Normalized(Field(spec, p).value)).value, q) == Some(Normalized(Field(spec, q).value))
  {
    var v, whole := Normalized(Field(spec, p).value), AllNormalized(spec);
    NormalizedField(spec, p);
    NormalizedField(spec, q);
    if Prefix(p, q) {
      SetGetBelow(out, p, v, q);
      FieldThrough(whole, p, q);
    } else if Prefix(q, p) {
      FieldThrough(whole, q, p);
      FieldThrough(out, q, p);
      SetSame(out, p, v);
    } else {
      SetGetElsewhere(out, p, v, q);
    }
  }

  /** Adding a field brings nothing that is not on its way or below it. */
  lemma AddedOnly(out: Fields, p: Path, v: Value, q: Path)
    requires p != [] && WithField(out, p, v).Some? && Field(WithField(out, p, v).value, q).Some?
    ensures Field(out, q).Some? || Comparable(p, q)
  {
    if !Comparable(p, q) {
      SetGetElsewhere(out, p, v, q);
    }
  }

  lemma AddedReadsBack(spec: Fields, done: seq<Listed>, out: Fields, field: Listed)
    requires ReadsBack(spec, done, out) && Added(spec, out, field).Some?
    ensures ReadsBack(spec, done + [field], Added(spec, out, field).value)
  {
    if !Present(spec, field) {
      assert forall f | f in done + [field] && Present(spec, f) :: f in done;
      return;
    }
    var p, v := field.value, Normalized(Field(spec, field.value).value);
    var out' := WithField(out, p, v).value;
    SetGetBelow(out, p, v, p);
    forall f | f in done + [field] && Present(spec, f) ensures Field(out', f.value) == Some(Normalized(Field(spec, f.value).value)) {
      if f != field {
        AddedKeeps(spec, out, p, f.value);
      }
    }
  }

  lemma CoveredMore(spec: Fields, done: seq<Listed>, field: Listed, q: Path)
    ensures Covered(spec, done, q) ==> Covered(spec, done + [field], q)
    ensures Present(spec, field) && Comparable(field.value, q) ==> Covered(spec, done + [field], q)
  {
    if Covered(spec, done, q) {
      var f :| f in done && Present(spec, f) && Comparable(f.value, q);
      assert f in done + [field];
    }
    assert field in done + [field];
  }

  lemma AddedNothingElse(spec: Fields, done: seq<Listed>, out: Fields, field: Listed)
    requires NothingElse(spec, done, out) && Added(spec, out, field).Some?
    ensures NothingElse(spec, done + [field], Added(spec, out, field).value)
  {
    var out' := Added(spec, out, field).value;
    forall q | Field(out', q).Some? ensures Covered(spec, done + [field], q) {
      CoveredMore(spec, done, field, q);
      if Present(spec, field) {
        AddedOnly(out, field.value, Normalized(Field(spec, field.value).value), q);
      }
    }
  }

  lemma AddedProjects(spec: Fields, done: seq<Listed>, out: Fields, field: Listed)
    requires Projects(spec, done, out)
    ensures Added(spec, out, field).Some? && Projects(spec, done + [field], Added(spec, out, field).value)
  {
    AddedPart(spec, out, field);
    AddedReadsBack(spec, done, out, field);
    AddedNothingElse(spec, done, out, field);
  }

  lemma AddedPart(spec: Fields, out: Fields, field: Listed)
    requires FieldsPartOf(out, AllNormalized(spec))
    ensures Added(spec, out, field).Some? && FieldsPartOf(Added(spec, out, field).value, AllNormalized(spec))
  {
    if Present(spec, field) {
      NormalizedField(spec, field.value);
      CopyFits(out, AllNormalized(spec), field.value, Normalized(Field(spec, field.value).value));
    }
  }

  /** The projection of a spec, for any list of paths in any order and with any overlap; it never fails. */
  method ProjectSpecFields(spec: Fields, paths: seq<Listed>) returns (out: Option<Fields>)
    ensures out.Some? && Projects(spec, paths, out.value)
  {
    var projected: Fields := map[];
    for i := 0 to |paths|
      invariant Projects(spec, paths[..i], projected)
    {
      AddedProjects(spec, paths[..i], projected, paths[i]);
      assert paths[..i + 1] == paths[..i] + [paths[i]];
      if paths[i].None? || |paths[i].value| == 0 {
        continue;
      }
      var value := Field(spec, paths[i].value);
      if value.None? {
        continue;
      }
      var changed := WithField(projected, paths[i].value, Normalized(value.value));
      if changed.None? {
        return None;
      }
      projected := changed.value;
    }
    assert paths[..|paths|] == paths;
    out := Some(projected);
  }

  /** Read back: listed and present fields come out normalized, and every leaf that comes out is one of the normalized spec. */
  lemma ProjectionAgrees(spec: Fields, paths: seq<Listed>, out: Fields, p: Path)
    requires Projects(spec, paths, out)
    ensures Some(p) in paths && p != [] && Field(spec, p).Some? ==> Field(out, p) == Some(Normalized(Field(spec, p).value))
    ensures Field(out, p).Some? && !Field(out, p).value.Object? ==>
      Field(spec, p).Some? && Field(out, p) == Some(Normalized(Field(spec, p).value))
    ensures Field(out, p).Some? ==> Covered(spec, paths, p)
  {
    NormalizedField(spec, p);
    if Field(out, p).Some? {
      LeavesOfPart(out, AllNormalized(spec), p);
    }
    if Some(p) in paths && p != [] && Field(spec, p).Some? {
      assert Present(spec, Some(p));
    }
  }
}
