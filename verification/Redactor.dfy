/**
 * The redactor: a set of remembered secrets, applied to text and, field by
 * field, to whole values (packages/shared/src/redaction.ts).
 *
 * The masking of credentials in URLs, and which key names are secret, are
 * regular expressions; here they are any two functions.
 */
module Redactor {
  import opened Prelude
  import opened Redaction

  // ---------------------------------------------------------------------------
  // Values
  // ---------------------------------------------------------------------------

  /** A value as the program holds it: objects are referred to, so they can be shared and circular. */
  datatype Value = Null | Text(text: string) | Scalar(n: int) | Ref(id: nat) {
    predicate Truthy() {
      match this
      case Null => false
      case Text(t) => t != ""
      case Scalar(n) => n != 0
      case Ref(_) => true
    }
  }

  datatype Object =
    | ArrayOf(items: seq<Value>)
    | ErrorOf(name: string, message: string, stack: string, cause: Value)
    | DateOf
    | MapOf
    | SetOf
    | BufferOf(length: nat)
    | Plain(fields: seq<(string, Value)>)

  type Objects = map<nat, Object>

  /** A redacted value; a marker stands for something left out. */
  datatype Out =
    | ONull
    | OText(text: string)
    | OScalar(n: int)
    | ODate(id: nat)
    | OMarker(marker: string)
    | OArray(items: seq<Out>)
    | OError(name: string, message: string, stack: Option<string>, cause: Option<Out>)
    | OPlain(fields: seq<(string, Out)>)

  const MAX_DEPTH := 12

  function BufferMarker(length: nat): string {
    "[buffer " + Decimal(length) + "B]"
  }

  /** What a redactor goes by. */
  datatype Settings = Settings(maskUrls: string -> string, secretKey: string -> bool, secrets: seq<string>) {
    predicate Valid() {
      AllTracked(secrets)
    }

    function Redacted(t: string): string
      requires Valid()
    {
      ReplaceEach(maskUrls(t), secrets)
    }

    // -------------------------------------------------------------------------
    // Walking a value
    // -------------------------------------------------------------------------

    /** The redacted value, and the objects met by the end of it. */
    function Walked(objects: Objects, v: Value, seen: set<nat>, depth: nat): (Out, set<nat>)
      requires Valid()
      decreases MAX_DEPTH + 1 - depth, 1, 0
    {
      if depth > MAX_DEPTH then (OMarker("[depth-limit]"), seen)
      else
        match v
        case Null => (ONull, seen)
        case Text(t) => (OText(Redacted(t)), seen)
        case Scalar(n) => (OScalar(n), seen)
        case Ref(id) =>
          if id !in objects then (ONull, seen)
          else if id in seen then (OMarker("[circular]"), seen)
          else WalkedObject(objects, id, seen + {id}, depth)
    }

    function WalkedObject(objects: Objects, id: nat, seen: set<nat>, depth: nat): (Out, set<nat>)
      requires Valid() && id in objects && depth <= MAX_DEPTH
      decreases MAX_DEPTH + 1 - depth, 0, 0
    {
      match objects[id]
      case ArrayOf(items) =>
        var (out, after) := WalkedItems(objects, items, seen, depth + 1);
        (OArray(out), after)
      case ErrorOf(name, message, stack, cause) =>
        var text, trace := Redacted(message), if stack != "" then Some(Redacted(stack)) else None;
        if cause.Truthy() then
          var (out, after) := Walked(objects, cause, seen, depth + 1);
          (OError(name, text, trace, Some(out)), after)
        else (OError(name, text, trace, None), seen)
      case DateOf => (ODate(id), seen)
      case MapOf => (OMarker("[map]"), seen)
      case SetOf => (OMarker("[set]"), seen)
      case BufferOf(length) => (OMarker(BufferMarker(length)), seen)
      case Plain(fields) =>
        var (out, after) := WalkedFields(objects, fields, seen, depth + 1);
        (OPlain(out), after)
    }

    function WalkedItems(objects: Objects, items: seq<Value>, seen: set<nat>, depth: nat): (r: (seq<Out>, set<nat>))
      requires Valid() && depth <= MAX_DEPTH + 1
      decreases MAX_DEPTH + 1 - depth, 2, |items|
    {
      if items == [] then ([], seen)
      else
        var last := |items| - 1;
        var (before, met) := WalkedItems(objects, items[..last], seen, depth);
        var (out, after) := Walked(objects, items[last], met, depth);
        (before + [out], after)
    }

    function WalkedFields(objects: Objects, fields: seq<(string, Value)>, seen: set<nat>,
                          depth: nat): (r: (seq<(string, Out)>, set<nat>))
      requires Valid() && depth <= MAX_DEPTH + 1
      decreases MAX_DEPTH + 1 - depth, 2, |fields|
    {
      if fields == [] then ([], seen)
      else
        var last := |fields| - 1;
        var (before, met) := WalkedFields(objects, fields[..last], seen, depth);
        var (key, v) := fields[last];
        if secretKey(key) then (before + [(key, OMarker(REDACTED))], met)
        else
          var (out, after) := Walked(objects, v, met, depth);
          (before + [(key, out)], after)
    }
  }

  // ---------------------------------------------------------------------------
  // What a redacted value may hold
  // ---------------------------------------------------------------------------

  /** `s` is in no text of the value: no string, and no message or stack of an error. */
  ghost predicate Clean(out: Out, s: string) {
    match out
    case OText(t) => !Occurs(s, t)
    case OArray(items) => forall k :: 0 <= k < |items| ==> Clean(items[k], s)
    case OError(_, message, stack, cause) =>
      && !Occurs(s, message)
      && (stack.Some? ==> !Occurs(s, stack.value))
      && (cause.Some? ==> Clean(cause.value, s))
    case OPlain(fields) => forall k :: 0 <= k < |fields| ==> Clean(fields[k].1, s)
    case _ => true
  }

  /** Everything stored under a secret key, at any depth, is the marker and nothing else. */
  ghost predicate KeysHidden(out: Out, secretKey: string -> bool) {
    match out
    case OArray(items) => forall k :: 0 <= k < |items| ==> KeysHidden(items[k], secretKey)
    case OError(_, _, _, cause) => cause.Some? ==> KeysHidden(cause.value, secretKey)
    case OPlain(fields) =>
      forall k :: 0 <= k < |fields| ==>
        && (secretKey(fields[k].0) ==> fields[k].1 == OMarker(REDACTED))
        && KeysHidden(fields[k].1, secretKey)
    case _ => true
  }

  lemma RedactedIsClean(c: Settings, t: string, s: string)
    requires c.Valid() && s in c.secrets && !Overlaps(s)
    ensures !Occurs(s, c.Redacted(t))
  {
    NoSecretSurvives(s, c.maskUrls(t), c.secrets);
  }

  /** Both hold of every redacted value, for a remembered secret that overlaps no replacement. */
  ghost predicate Safe(c: Settings, out: Out, s: string) {
    Clean(out, s) && KeysHidden(out, c.secretKey)
  }

  ghost predicate AllSafe(c: Settings, outs: seq<Out>, s: string) {
    forall k :: 0 <= k < |outs| ==> Safe(c, outs[k], s)
  }

  ghost predicate FieldSafe(c: Settings, field: (string, Out), s: string) {
    Safe(c, field.1, s) && (c.secretKey(field.0) ==> field.1 == OMarker(REDACTED))
  }

  ghost predicate AllFieldsSafe(c: Settings, fields: seq<(string, Out)>, s: string) {
    forall k :: 0 <= k < |fields| ==> FieldSafe(c, fields[k], s)
  }

  lemma {:induction false} WalkIsSafe(c: Settings, objects: Objects, v: Value, seen: set<nat>, depth: nat, s: string)
    requires c.Valid() && s in c.secrets && !Overlaps(s)
    ensures Safe(c, c.Walked(objects, v, seen, depth).0, s)
    decreases MAX_DEPTH + 1 - depth, 1, 0
  {
    if depth <= MAX_DEPTH {
      match v {
        case Null =>
          assert c.Walked(objects, v, seen, depth).0 == ONull;
        case Text(t) =>
          RedactedIsClean(c, t, s);
          assert c.Walked(objects, v, seen, depth).0 == OText(c.Redacted(t));
        case Scalar(n) =>
          assert c.Walked(objects, v, seen, depth).0 == OScalar(n);
        case Ref(id) =>
          if id in objects && id !in seen {
            ObjectIsSafe(c, objects, id, seen + {id}, depth, s);
          }
      }
    }
  }

  lemma {:induction false} ObjectIsSafe(c: Settings, objects: Objects, id: nat, seen: set<nat>, depth: nat, s: string)
    requires c.Valid() && s in c.secrets && !Overlaps(s) && id in objects && depth <= MAX_DEPTH
    ensures Safe(c, c.WalkedObject(objects, id, seen, depth).0, s)
    decreases MAX_DEPTH + 1 - depth, 0, 0
  {
    match objects[id] {
      case ArrayOf(items) =>
        ItemsAreSafe(c, objects, items, seen, depth + 1, s);
        var out := c.WalkedItems(objects, items, seen, depth + 1).0;
        assert c.WalkedObject(objects, id, seen, depth).0 == OArray(out);
        assert forall k :: 0 <= k < |out| ==> Safe(c, out[k], s);
      case ErrorOf(name, message, stack, cause) =>
        RedactedIsClean(c, message, s);
        RedactedIsClean(c, stack, s);
        if cause.Truthy() {
          WalkIsSafe(c, objects, cause, seen, depth + 1, s);
        }
      case Plain(fields) =>
        FieldsAreSafe(c, objects, fields, seen, depth + 1, s);
        var out := c.WalkedFields(objects, fields, seen, depth + 1).0;
        assert c.WalkedObject(objects, id, seen, depth).0 == OPlain(out);
        assert forall k :: 0 <= k < |out| ==> FieldSafe(c, out[k], s);
      case _ =>
    }
  }

  lemma {:induction false} ItemsAreSafe(c: Settings, objects: Objects, items: seq<Value>, seen: set<nat>, depth: nat,
                                        s: string)
    requires c.Valid() && s in c.secrets && !Overlaps(s) && depth <= MAX_DEPTH + 1
    ensures AllSafe(c, c.WalkedItems(objects, items, seen, depth).0, s)
    decreases MAX_DEPTH + 1 - depth, 2, |items|
  {
    if items != [] {
      var last := |items| - 1;
      var (before, met) := c.WalkedItems(objects, items[..last], seen, depth);
      ItemsAreSafe(c, objects, items[..last], seen, depth, s);
      WalkIsSafe(c, objects, items[last], met, depth, s);
      assert c.WalkedItems(objects, items, seen, depth).0 == before + [c.Walked(objects, items[last], met, depth).0];
      assert AllSafe(c, before, s);
    }
  }

  lemma {:induction false} FieldsAreSafe(c: Settings, objects: Objects, fields: seq<(string, Value)>, seen: set<nat>,
                                         depth: nat, s: string)
    requires c.Valid() && s in c.secrets && !Overlaps(s) && depth <= MAX_DEPTH + 1
    ensures AllFieldsSafe(c, c.WalkedFields(objects, fields, seen, depth).0, s)
    decreases MAX_DEPTH + 1 - depth, 2, |fields|
  {
    if fields != [] {
      var last := |fields| - 1;
      var (before, met) := c.WalkedFields(objects, fields[..last], seen, depth);
      var (key, v) := fields[last];
      FieldsAreSafe(c, objects, fields[..last], seen, depth, s);
      WalkIsSafe(c, objects, v, met, depth, s);
      var field := if c.secretKey(key) then OMarker(REDACTED) else c.Walked(objects, v, met, depth).0;
      assert c.WalkedFields(objects, fields, seen, depth).0 == before + [(key, field)];
      assert AllFieldsSafe(c, before, s) && FieldSafe(c, (key, field), s);
    }
  }

  // ---------------------------------------------------------------------------
  // All that a redacted value shows
  // ---------------------------------------------------------------------------

  /** `s` can be read somewhere in the value: in a text, a marker, the name of an error or the key of a field. */
  ghost predicate Shown(out: Out, s: string) {
    match out
    case OText(t) => Occurs(s, t)
    case OMarker(marker) => Occurs(s, marker)
    case OArray(items) => exists k :: 0 <= k < |items| && Shown(items[k], s)
    case OError(name, message, stack, cause) =>
      || Occurs(s, name) || Occurs(s, message)
      || (stack.Some? && Occurs(s, stack.value))
      || (cause.Some? && Shown(cause.value, s))
    case OPlain(fields) => exists k :: 0 <= k < |fields| && (Occurs(s, fields[k].0) || Shown(fields[k].1, s))
    case _ => false
  }

  /** `s` is in one of the markers. */
  ghost predicate InMarker(out: Out, s: string) {
    match out
    case OMarker(marker) => Occurs(s, marker)
    case OArray(items) => exists k :: 0 <= k < |items| && InMarker(items[k], s)
    case OError(_, _, _, cause) => cause.Some? && InMarker(cause.value, s)
    case OPlain(fields) => exists k :: 0 <= k < |fields| && InMarker(fields[k].1, s)
    case _ => false
  }

  /** `s` is in the name of the error, or in a key of the object. */
  ghost predicate Labelled(o: Object, s: string) {
    match o
    case ErrorOf(name, _, _, _) => Occurs(s, name)
    case Plain(fields) => exists k :: 0 <= k < |fields| && Occurs(s, fields[k].0)
    case _ => false
  }

  /** An object met between the two has `s` in its name or keys. */
  ghost predicate LabelMet(objects: Objects, seen: set<nat>, after: set<nat>, s: string) {
    exists id :: id in after && id !in seen && id in objects && Labelled(objects[id], s)
  }

  /** Nothing met is forgotten. */
  lemma {:induction false} WalkMeets(c: Settings, objects: Objects, v: Value, seen: set<nat>, depth: nat)
    requires c.Valid()
    ensures seen <= c.Walked(objects, v, seen, depth).1
    decreases MAX_DEPTH + 1 - depth, 1, 0
  {
    if depth <= MAX_DEPTH && v.Ref? && v.id in objects && v.id !in seen {
      match objects[v.id] {
        case ArrayOf(items) => ItemsMeet(c, objects, items, seen + {v.id}, depth + 1);
        case ErrorOf(_, _, _, cause) =>
          if cause.Truthy() {
            WalkMeets(c, objects, cause, seen + {v.id}, depth + 1);
          }
        case Plain(fields) => FieldsMeet(c, objects, fields, seen + {v.id}, depth + 1);
        case _ =>
      }
    }
  }

  lemma {:induction false} ItemsMeet(c: Settings, objects: Objects, items: seq<Value>, seen: set<nat>, depth: nat)
    requires c.Valid() && depth <= MAX_DEPTH + 1
    ensures seen <= c.WalkedItems(objects, items, seen, depth).1
    decreases MAX_DEPTH + 1 - depth, 2, |items|
  {
    if items != [] {
      var last := |items| - 1;
      ItemsMeet(c, objects, items[..last], seen, depth);
      WalkMeets(c, objects, items[last], c.WalkedItems(objects, items[..last], seen, depth).1, depth);
    }
  }

  lemma {:induction false} FieldsMeet(c: Settings, objects: Objects, fields: seq<(string, Value)>, seen: set<nat>,
                                      depth: nat)
    requires c.Valid() && depth <= MAX_DEPTH + 1
    ensures seen <= c.WalkedFields(objects, fields, seen, depth).1
    decreases MAX_DEPTH + 1 - depth, 2, |fields|
  {
    if fields != [] {
      var last := |fields| - 1;
      FieldsMeet(c, objects, fields[..last], seen, depth);
      WalkMeets(c, objects, fields[last].1, c.WalkedFields(objects, fields[..last], seen, depth).1, depth);
    }
  }

  lemma LabelMetInTwo(objects: Objects, seen: set<nat>, met: set<nat>, after: set<nat>, s: string)
    requires seen <= met <= after
    ensures LabelMet(objects, seen, after, s) <==> LabelMet(objects, seen, met, s) || LabelMet(objects, met, after, s)
  {
  }

  ghost predicate SomeShown(outs: seq<Out>, s: string) {
    exists k :: 0 <= k < |outs| && Shown(outs[k], s)
  }

  ghost predicate SomeInMarker(outs: seq<Out>, s: string) {
    exists k :: 0 <= k < |outs| && InMarker(outs[k], s)
  }

  ghost predicate FieldShown(fields: seq<(string, Out)>, s: string) {
    exists k :: 0 <= k < |fields| && Shown(fields[k].1, s)
  }

  ghost predicate FieldInMarker(fields: seq<(string, Out)>, s: string) {
    exists k :: 0 <= k < |fields| && InMarker(fields[k].1, s)
  }

  lemma SomeMore(outs: seq<Out>, out: Out, s: string)
    ensures SomeShown(outs + [out], s) <==> SomeShown(outs, s) || Shown(out, s)
    ensures SomeInMarker(outs + [out], s) <==> SomeInMarker(outs, s) || InMarker(out, s)
  {
    var all := outs + [out];
    assert all[|outs|] == out && forall k :: 0 <= k < |outs| ==> all[k] == outs[k];
  }

  lemma FieldMore(fields: seq<(string, Out)>, field: (string, Out), s: string)
    ensures FieldShown(fields + [field], s) <==> FieldShown(fields, s) || Shown(field.1, s)
    ensures FieldInMarker(fields + [field], s) <==> FieldInMarker(fields, s) || InMarker(field.1, s)
  {
    var all := fields + [field];
    assert all[|fields|] == field && forall k :: 0 <= k < |fields| ==> all[k] == fields[k];
  }

  lemma ArrayShows(outs: seq<Out>, s: string)
    ensures Shown(OArray(outs), s) <==> SomeShown(outs, s)
    ensures InMarker(OArray(outs), s) <==> SomeInMarker(outs, s)
  {
  }

  lemma PlainShows(outs: seq<(string, Out)>, fields: seq<(string, Value)>, s: string)
    requires |outs| == |fields| && forall k :: 0 <= k < |fields| ==> outs[k].0 == fields[k].0
    ensures Shown(OPlain(outs), s) <==> Labelled(Plain(fields), s) || FieldShown(outs, s)
    ensures InMarker(OPlain(outs), s) <==> FieldInMarker(outs, s)
  {
    if k :| 0 <= k < |fields| && Occurs(s, fields[k].0) {
      assert Occurs(s, outs[k].0);
    }
    if k :| 0 <= k < |outs| && Occurs(s, outs[k].0) {
      assert Occurs(s, fields[k].0);
    }
  }

  /**
   * Exactly where a remembered secret that overlaps no replacement can still be read: in the name of an error met, in
   * a key of an object met, or in a marker.
   */
  lemma {:induction false} ShownIff(c: Settings, objects: Objects, v: Value, seen: set<nat>, depth: nat, s: string)
    requires c.Valid() && s in c.secrets && !Overlaps(s)
    ensures var (out, after) := c.Walked(objects, v, seen, depth);
            Shown(out, s) <==> LabelMet(objects, seen, after, s) || InMarker(out, s)
    decreases MAX_DEPTH + 1 - depth, 1, 0
  {
    if depth <= MAX_DEPTH {
      match v {
        case Text(t) => RedactedIsClean(c, t, s);
        case Ref(id) =>
          if id in objects && id !in seen {
            ObjectShownIff(c, objects, id, seen + {id}, depth, s);
            var (out, after) := c.WalkedObject(objects, id, seen + {id}, depth);
            assert c.Walked(objects, v, seen, depth) == (out, after);
            ObjectMeets(c, objects, id, seen + {id}, depth);
            LabelMetInTwo(objects, seen, seen + {id}, after, s);
          }
        case _ =>
      }
    }
  }

  lemma ObjectMeets(c: Settings, objects: Objects, id: nat, seen: set<nat>, depth: nat)
    requires c.Valid() && id in objects && depth <= MAX_DEPTH
    ensures seen <= c.WalkedObject(objects, id, seen, depth).1
  {
    match objects[id] {
      case ArrayOf(items) => ItemsMeet(c, objects, items, seen, depth + 1);
      case ErrorOf(_, _, _, cause) => WalkMeets(c, objects, cause, seen, depth + 1);
      case Plain(fields) => FieldsMeet(c, objects, fields, seen, depth + 1);
      case _ =>
    }
  }

  lemma {:induction false} ObjectShownIff(c: Settings, objects: Objects, id: nat, seen: set<nat>, depth: nat, s: string)
    requires c.Valid() && s in c.secrets && !Overlaps(s) && id in objects && depth <= MAX_DEPTH
    ensures var (out, after) := c.WalkedObject(objects, id, seen, depth);
            Shown(out, s) <==> Labelled(objects[id], s) || LabelMet(objects, seen, after, s) || InMarker(out, s)
    decreases MAX_DEPTH + 1 - depth, 0, 0
  {
    match objects[id] {
      case ArrayOf(items) =>
        ItemsShownIff(c, objects, items, seen, depth + 1, s);
        var (outs, after) := c.WalkedItems(objects, items, seen, depth + 1);
        assert c.WalkedObject(objects, id, seen, depth) == (OArray(outs), after);
        ArrayShows(outs, s);
      case ErrorOf(name, message, stack, cause) =>
        RedactedIsClean(c, message, s);
        RedactedIsClean(c, stack, s);
        if cause.Truthy() {
          ShownIff(c, objects, cause, seen, depth + 1, s);
        }
      case Plain(fields) =>
        FieldsShownIff(c, objects, fields, seen, depth + 1, s);
        var (outs, after) := c.WalkedFields(objects, fields, seen, depth + 1);
        assert c.WalkedObject(objects, id, seen, depth) == (OPlain(outs), after);
        SameKeys(c, objects, fields, seen, depth + 1);
        PlainShows(outs, fields, s);
      case _ =>
    }
  }

  lemma {:induction false} ItemsShownIff(c: Settings, objects: Objects, items: seq<Value>, seen: set<nat>, depth: nat,
                                         s: string)
    requires c.Valid() && s in c.secrets && !Overlaps(s) && depth <= MAX_DEPTH + 1
    ensures var (outs, after) := c.WalkedItems(objects, items, seen, depth);
            SomeShown(outs, s) <==> LabelMet(objects, seen, after, s) || SomeInMarker(outs, s)
    decreases MAX_DEPTH + 1 - depth, 2, |items|
  {
    if items != [] {
      var last := |items| - 1;
      var (before, met) := c.WalkedItems(objects, items[..last], seen, depth);
      var (out, after) := c.Walked(objects, items[last], met, depth);
      assert c.WalkedItems(objects, items, seen, depth) == (before + [out], after);
      ItemsShownIff(c, objects, items[..last], seen, depth, s);
      ShownIff(c, objects, items[last], met, depth, s);
      SomeMore(before, out, s);
      ItemsMeet(c, objects, items[..last], seen, depth);
      WalkMeets(c, objects, items[last], met, depth);
      LabelMetInTwo(objects, seen, met, after, s);
    }
  }

  lemma {:induction false} FieldsShownIff(c: Settings, objects: Objects, fields: seq<(string, Value)>, seen: set<nat>,
                                          depth: nat, s: string)
    requires c.Valid() && s in c.secrets && !Overlaps(s) && depth <= MAX_DEPTH + 1
    ensures var (outs, after) := c.WalkedFields(objects, fields, seen, depth);
            FieldShown(outs, s) <==> LabelMet(objects, seen, after, s) || FieldInMarker(outs, s)
    decreases MAX_DEPTH + 1 - depth, 2, |fields|
  {
    if fields != [] {
      var last := |fields| - 1;
      var (before, met) := c.WalkedFields(objects, fields[..last], seen, depth);
      var (key, v) := fields[last];
      FieldsShownIff(c, objects, fields[..last], seen, depth, s);
      if c.secretKey(key) {
        assert c.WalkedFields(objects, fields, seen, depth) == (before + [(key, OMarker(REDACTED))], met);
        FieldMore(before, (key, OMarker(REDACTED)), s);
      } else {
        var (out, after) := c.Walked(objects, v, met, depth);
        assert c.WalkedFields(objects, fields, seen, depth) == (before + [(key, out)], after);
        ShownIff(c, objects, v, met, depth, s);
        FieldMore(before, (key, out), s);
        FieldsMeet(c, objects, fields[..last], seen, depth);
        WalkMeets(c, objects, v, met, depth);
        LabelMetInTwo(objects, seen, met, after, s);
      }
    }
  }

  /** Every key comes out as it went in. */
  lemma {:induction false} SameKeys(c: Settings, objects: Objects, fields: seq<(string, Value)>, seen: set<nat>,
                                    depth: nat)
    requires c.Valid() && depth <= MAX_DEPTH + 1
    ensures var outs := c.WalkedFields(objects, fields, seen, depth).0;
            |outs| == |fields| && forall k :: 0 <= k < |fields| ==> outs[k].0 == fields[k].0
    decreases |fields|
  {
    if fields != [] {
      SameKeys(c, objects, fields[..|fields| - 1], seen, depth);
    }
  }

  // ---------------------------------------------------------------------------
  // What can be told beforehand
  // ---------------------------------------------------------------------------

  /** `s` is in one of the markers there are. */
  ghost predicate FixedMarker(s: string) {
    || Occurs(s, "[depth-limit]") || Occurs(s, "[circular]") || Occurs(s, "[map]") || Occurs(s, "[set]")
    || Occurs(s, REDACTED)
    || exists n :: Occurs(s, BufferMarker(n))
  }

  /** No marker is any other. */
  lemma {:induction false} MarkersAreFixed(c: Settings, objects: Objects, v: Value, seen: set<nat>, depth: nat,
                                           s: string)
    requires c.Valid() && InMarker(c.Walked(objects, v, seen, depth).0, s)
    ensures FixedMarker(s)
    decreases MAX_DEPTH + 1 - depth, 1, 0
  {
    if depth <= MAX_DEPTH && v.Ref? && v.id in objects && v.id !in seen {
      ObjectMarkersAreFixed(c, objects, v.id, seen + {v.id}, depth, s);
    }
  }

  lemma {:induction false} ObjectMarkersAreFixed(c: Settings, objects: Objects, id: nat, seen: set<nat>, depth: nat,
                                                 s: string)
    requires c.Valid() && id in objects && depth <= MAX_DEPTH && InMarker(c.WalkedObject(objects, id, seen, depth).0, s)
    ensures FixedMarker(s)
    decreases MAX_DEPTH + 1 - depth, 0, 0
  {
    match objects[id] {
      case ArrayOf(items) =>
        assert SomeInMarker(c.WalkedItems(objects, items, seen, depth + 1).0, s);
        ItemMarkersAreFixed(c, objects, items, seen, depth + 1, s);
      case ErrorOf(_, _, _, cause) => MarkersAreFixed(c, objects, cause, seen, depth + 1, s);
      case BufferOf(length) => assert Occurs(s, BufferMarker(length));
      case Plain(fields) =>
        assert FieldInMarker(c.WalkedFields(objects, fields, seen, depth + 1).0, s);
        FieldMarkersAreFixed(c, objects, fields, seen, depth + 1, s);
      case _ =>
    }
  }

  lemma {:induction false} ItemMarkersAreFixed(c: Settings, objects: Objects, items: seq<Value>, seen: set<nat>,
                                               depth: nat, s: string)
    requires c.Valid() && depth <= MAX_DEPTH + 1 && SomeInMarker(c.WalkedItems(objects, items, seen, depth).0, s)
    ensures FixedMarker(s)
    decreases MAX_DEPTH + 1 - depth, 2, |items|
  {
    if items != [] {
      var last := |items| - 1;
      var (before, met) := c.WalkedItems(objects, items[..last], seen, depth);
      var out := c.Walked(objects, items[last], met, depth).0;
      SomeMore(before, out, s);
      if SomeInMarker(before, s) {
        ItemMarkersAreFixed(c, objects, items[..last], seen, depth, s);
      } else {
        MarkersAreFixed(c, objects, items[last], met, depth, s);
      }
    }
  }

  lemma {:induction false} FieldMarkersAreFixed(c: Settings, objects: Objects, fields: seq<(string, Value)>,
                                                seen: set<nat>, depth: nat, s: string)
    requires c.Valid() && depth <= MAX_DEPTH + 1 && FieldInMarker(c.WalkedFields(objects, fields, seen, depth).0, s)
    ensures FixedMarker(s)
    decreases MAX_DEPTH + 1 - depth, 2, |fields|
  {
    if fields != [] {
      var last := |fields| - 1;
      var (before, met) := c.WalkedFields(objects, fields[..last], seen, depth);
      var (key, v) := fields[last];
      var out := if c.secretKey(key) then OMarker(REDACTED) else c.Walked(objects, v, met, depth).0;
      assert c.WalkedFields(objects, fields, seen, depth).0 == before + [(key, out)];
      FieldMore(before, (key, out), s);
      if FieldInMarker(before, s) {
        FieldMarkersAreFixed(c, objects, fields[..last], seen, depth, s);
      } else if !c.secretKey(key) {
        MarkersAreFixed(c, objects, v, met, depth, s);
      }
    }
  }

  /** No error or object among these has `s` in its name or keys. */
  ghost predicate Unlabelled(objects: Objects, s: string) {
    forall id :: id in objects ==> !Labelled(objects[id], s)
  }

  /** What is in no name, key or marker cannot be read in the result. */
  lemma HiddenWhenUnlabelled(c: Settings, objects: Objects, v: Value, s: string)
    requires c.Valid() && s in c.secrets && !Overlaps(s) && Unlabelled(objects, s) && !FixedMarker(s)
    ensures !Shown(c.Walked(objects, v, {}, 0).0, s)
  {
    ShownIff(c, objects, v, {}, 0, s);
    if InMarker(c.Walked(objects, v, {}, 0).0, s) {
      MarkersAreFixed(c, objects, v, {}, 0, s);
    }
  }

  /** An object of a kind that only gives a marker gives it. */
  lemma MarkerAlone(c: Settings, o: Object, s: string)
    requires c.Valid() && (o.MapOf? || o.SetOf? || o.BufferOf?)
    requires Occurs(s, match o case MapOf => "[map]" case SetOf => "[set]" case _ => BufferMarker(o.length))
    ensures Unlabelled(map[0 := o], s) && Shown(c.Walked(map[0 := o], Ref(0), {}, 0).0, s)
  {
    var objects := map[0 := o];
    assert {} + {0} == {0};
    assert c.Walked(objects, Ref(0), {}, 0) == c.WalkedObject(objects, 0, {0}, 0);
    assert c.Walked(objects, Ref(0), {}, 0).0.OMarker?;
  }

  /** An array that holds one value shows what it does. */
  lemma ArrayOfOneShows(c: Settings, objects: Objects, id: nat, v: Value, seen: set<nat>, depth: nat, s: string)
    requires c.Valid() && id in objects && id !in seen && depth <= MAX_DEPTH && objects[id] == ArrayOf([v])
    requires Shown(c.Walked(objects, v, seen + {id}, depth + 1).0, s)
    ensures Shown(c.Walked(objects, Ref(id), seen, depth).0, s)
  {
    var (out, after) := c.Walked(objects, v, seen + {id}, depth + 1);
    var outs := [out];
    assert [v][..0] == [];
    assert c.WalkedItems(objects, [v], seen + {id}, depth + 1) == ([] + [out], after);
    assert [] + [out] == outs;
    assert c.Walked(objects, Ref(id), seen, depth) == c.WalkedObject(objects, id, seen + {id}, depth);
    assert c.WalkedObject(objects, id, seen + {id}, depth).0 == OArray(outs);
    assert Shown(outs[0], s);
    ArrayShows(outs, s);
  }

  function HoldsNext(id: nat): Object {
    ArrayOf([Ref(id + 1)])
  }

  function Nested(): Objects {
    map id: nat | id <= MAX_DEPTH :: HoldsNext(id)
  }

  /** Arrays within arrays, one too many. */
  lemma {:induction false} NestedTooDeep(c: Settings, depth: nat, seen: set<nat>, s: string)
    requires c.Valid() && depth <= MAX_DEPTH + 1 && (forall id :: id in seen ==> id < depth)
      && Occurs(s, "[depth-limit]")
    ensures Shown(c.Walked(Nested(), Ref(depth), seen, depth).0, s)
    decreases MAX_DEPTH + 1 - depth
  {
    if depth <= MAX_DEPTH {
      NestedTooDeep(c, depth + 1, seen + {depth}, s);
      ArrayOfOneShows(c, Nested(), depth, Ref(depth + 1), seen, depth, s);
    }
  }

  /** Some value without it in a name or key shows it: for each marker one that has that. */
  lemma SomeValueShows(c: Settings, s: string) returns (objects: Objects)
    requires c.Valid() && FixedMarker(s) && !Occurs(s, REDACTED)
    ensures Unlabelled(objects, s) && Shown(c.Walked(objects, Ref(0), {}, 0).0, s)
  {
    if Occurs(s, "[depth-limit]") {
      objects := Nested();
      NestedTooDeep(c, 0, {}, s);
    } else if Occurs(s, "[circular]") {
      objects := map[0 := ArrayOf([Ref(0)])];
      assert c.Walked(objects, Ref(0), {0}, 1).0 == OMarker("[circular]");
      ArrayOfOneShows(c, objects, 0, Ref(0), {}, 0, s);
    } else if Occurs(s, "[map]") {
      objects := map[0 := MapOf];
      MarkerAlone(c, MapOf, s);
    } else if Occurs(s, "[set]") {
      objects := map[0 := SetOf];
      MarkerAlone(c, SetOf, s);
    } else {
      var n: nat :| Occurs(s, BufferMarker(n));
      objects := map[0 := BufferOf(n)];
      MarkerAlone(c, BufferOf(n), s);
    }
  }

  lemma OverlapsWhereItOccurs(s: string)
    requires s != "" && Occurs(s, REDACTED)
    ensures Overlaps(s)
  {
    var i: nat :| OccursAt(s, REDACTED, i);
    forall k | 0 <= k < |s| && 0 <= i + k < |REDACTED| ensures s[k] == REDACTED[i + k] {
      assert REDACTED[i..i + |s|][k] == REDACTED[i + k];
    }
    assert AgreesAt(s, i);
  }

  /** Free of `s` in every name and key, the value does not show it once redacted. */
  ghost predicate Hides(c: Settings, objects: Objects, v: Value, s: string)
    requires c.Valid()
  {
    Unlabelled(objects, s) ==> !Shown(c.Walked(objects, v, {}, 0).0, s)
  }

  /**
   * A remembered secret that overlaps no replacement is read in no value whose names and keys are free of it, exactly
   * when it is part of no marker.
   */
  lemma HiddenIffNoMarker(c: Settings, s: string)
    requires c.Valid() && s in c.secrets && !Overlaps(s)
    ensures (forall objects, v :: Hides(c, objects, v, s)) <==> !FixedMarker(s)
  {
    if FixedMarker(s) {
      if Occurs(s, REDACTED) {
        OverlapsWhereItOccurs(s);
      }
      var objects := SomeValueShows(c, s);
      assert !Hides(c, objects, Ref(0), s);
    } else {
      forall objects, v ensures Hides(c, objects, v, s) {
        if Unlabelled(objects, s) {
          HiddenWhenUnlabelled(c, objects, v, s);
        }
      }
    }
  }

  /** The name of an error is not redacted, nor is a key, secret or not: a secret in it is kept. */
  lemma NamesAndKeysAreKept(c: Settings, s: string, v: Value)
    requires c.Valid()
    ensures Shown(c.Walked(map[0 := ErrorOf(s, "", "", Null)], Ref(0), {}, 0).0, s)
    ensures Shown(c.Walked(map[0 := Plain([(s, v)])], Ref(0), {}, 0).0, s)
  {
    assert OccursAt(s, s, 0);
    var objects := map[0 := Plain([(s, v)])];
    SameKeys(c, objects, [(s, v)], {0}, 1);
    var outs := c.WalkedFields(objects, [(s, v)], {0}, 1).0;
    assert c.Walked(objects, Ref(0), {}, 0).0 == OPlain(outs);
    assert outs[0].0 == s;
  }

  /** A marker may show one too: remembering the word for an object met before, in an array that holds itself. */
  lemma MarkersAreShown(c: Settings)
    requires c.Valid() && c.secrets == ["circular"]
    ensures !Overlaps("circular") && Shown(c.Walked(map[0 := ArrayOf([Ref(0)])], Ref(0), {}, 0).0, "circular")
  {
    var s, objects := "circular", map[0 := ArrayOf([Ref(0)])];
    assert s[0] != "redacted"[0];
    PlainSecretsDoNotOverlap(s);
    assert OccursAt(s, "[circular]", 1);
    assert [Ref(0)][..0] == [];
    assert c.WalkedItems(objects, [Ref(0)], {0}, 1).0 == [] + [OMarker("[circular]")];
    assert c.Walked(objects, Ref(0), {}, 0).0 == OArray([OMarker("[circular]")]);
    var outs := [OMarker("[circular]")];
    assert Shown(outs[0], s);
    assert Shown(OArray(outs), s);
  }

  // ---------------------------------------------------------------------------
  // What comes through
  // ---------------------------------------------------------------------------

  /** URLs are masked, then the remembered secrets exchanged one after another; all else is kept. */
  ghost predicate TextKept(c: Settings, t: string, x: string) {
    ExchangedEach(c.maskUrls(t), c.secrets, x)
  }

  /** The objects a value leads to in so many steps. */
  ghost function Reach(objects: Objects, v: Value, n: nat): set<nat>
    decreases n, 0, 0
  {
    if n == 0 || !v.Ref? || v.id !in objects then {}
    else {v.id} + ReachOf(objects, objects[v.id], n - 1)
  }

  ghost function ReachOf(objects: Objects, o: Object, n: nat): set<nat>
    decreases n, 2, 0
  {
    match o
    case ArrayOf(items) => ReachAll(objects, items, n)
    case ErrorOf(_, _, _, cause) => if cause.Truthy() then Reach(objects, cause, n) else {}
    case Plain(fields) => ReachFields(objects, fields, n)
    case _ => {}
  }

  ghost function ReachAll(objects: Objects, items: seq<Value>, n: nat): set<nat>
    decreases n, 1, |items|
  {
    if items == [] then {}
    else ReachAll(objects, items[..|items| - 1], n) + Reach(objects, items[|items| - 1], n)
  }

  ghost function ReachFields(objects: Objects, fields: seq<(string, Value)>, n: nat): set<nat>
    decreases n, 1, |fields|
  {
    if fields == [] then {}
    else ReachFields(objects, fields[..|fields| - 1], n) + Reach(objects, fields[|fields| - 1].1, n)
  }

  ghost function Left(depth: nat): nat {
    if depth > MAX_DEPTH then 0 else MAX_DEPTH + 1 - depth
  }

  /**
   * What comes out has the form of what went in, down to the depth limit. In place of an object there is a marker where
   * the object is inside itself, in `path`, and nowhere that no other reference to it, in `may`, came before.
   */
  ghost predicate Mirrors(c: Settings, objects: Objects, v: Value, path: set<nat>, may: set<nat>, depth: nat, out: Out)
    decreases out, 1
  {
    if depth > MAX_DEPTH then out == OMarker("[depth-limit]")
    else
      match v
      case Null => out == ONull
      case Text(t) => out.OText? && TextKept(c, t, out.text)
      case Scalar(n) => out == OScalar(n)
      case Ref(id) =>
        if id !in objects then out == ONull
        else if id in path then out == OMarker("[circular]")
        else
          || (id in may && out == OMarker("[circular]"))
          || ObjectMirrors(c, objects, objects[id], id, path + {id}, may + {id}, depth, out)
  }

  ghost predicate ObjectMirrors(c: Settings, objects: Objects, o: Object, id: nat, path: set<nat>, may: set<nat>,
                                depth: nat, out: Out)
    decreases out, 0
  {
    match o
    case ArrayOf(items) =>
      && out.OArray? && |out.items| == |items|
      && forall k :: 0 <= k < |items| ==>
          Mirrors(c, objects, items[k], path, may + ReachAll(objects, items[..k], Left(depth + 1)), depth + 1,
                  out.items[k])
    case ErrorOf(name, message, stack, cause) =>
      && out.OError? && out.name == name && TextKept(c, message, out.message)
      && (if stack == "" then out.stack == None else out.stack.Some? && TextKept(c, stack, out.stack.value))
      && (if cause == Null || cause == Text("") || cause == Scalar(0) then out.cause == None
          else out.cause.Some? && Mirrors(c, objects, cause, path, may, depth + 1, out.cause.value))
    case DateOf => out == ODate(id)
    case MapOf => out == OMarker("[map]")
    case SetOf => out == OMarker("[set]")
    case BufferOf(length) => out == OMarker(BufferMarker(length))
    case Plain(fields) =>
      && out.OPlain? && |out.fields| == |fields|
      && forall k :: 0 <= k < |fields| ==>
          FieldMirrors(c, objects, fields[k], path, may + ReachFields(objects, fields[..k], Left(depth + 1)), depth + 1,
                       out.fields[k])
  }

  /** The key is kept, and the value unless the key is a secret one. */
  ghost predicate FieldMirrors(c: Settings, objects: Objects, field: (string, Value), path: set<nat>, may: set<nat>,
                               depth: nat, out: (string, Out))
    decreases out.1, 2
  {
    && out.0 == field.0
    && if c.secretKey(field.0) then out.1 == OMarker(REDACTED)
       else Mirrors(c, objects, field.1, path, may, depth, out.1)
  }

  ghost predicate ItemMirrors(c: Settings, objects: Objects, items: seq<Value>, k: nat, path: set<nat>, may: set<nat>,
                              depth: nat, out: Out)
    requires k < |items|
  {
    Mirrors(c, objects, items[k], path, may + ReachAll(objects, items[..k], Left(depth)), depth, out)
  }

  ghost predicate ItemsMirror(c: Settings, objects: Objects, items: seq<Value>, path: set<nat>, may: set<nat>,
                              depth: nat, outs: seq<Out>) {
    |outs| == |items| && forall k :: 0 <= k < |items| ==> ItemMirrors(c, objects, items, k, path, may, depth, outs[k])
  }

  lemma EarlierMirrors(c: Settings, objects: Objects, items: seq<Value>, k: nat, path: set<nat>, may: set<nat>,
                       depth: nat, out: Out)
    requires k < |items| - 1 && ItemMirrors(c, objects, items[..|items| - 1], k, path, may, depth, out)
    ensures ItemMirrors(c, objects, items, k, path, may, depth, out)
  {
    assert items[..|items| - 1][..k] == items[..k];
  }

  lemma OneMoreMirrors(c: Settings, objects: Objects, items: seq<Value>, path: set<nat>, may: set<nat>, depth: nat,
                       before: seq<Out>, out: Out)
    requires items != [] && ItemsMirror(c, objects, items[..|items| - 1], path, may, depth, before)
    requires ItemMirrors(c, objects, items, |items| - 1, path, may, depth, out)
    ensures ItemsMirror(c, objects, items, path, may, depth, before + [out])
  {
    forall k | 0 <= k < |before| ensures ItemMirrors(c, objects, items, k, path, may, depth, before[k]) {
      EarlierMirrors(c, objects, items, k, path, may, depth, before[k]);
    }
  }

  ghost predicate PlaceMirrors(c: Settings, objects: Objects, fields: seq<(string, Value)>, k: nat, path: set<nat>,
                               may: set<nat>, depth: nat, out: (string, Out))
    requires k < |fields|
  {
    FieldMirrors(c, objects, fields[k], path, may + ReachFields(objects, fields[..k], Left(depth)), depth, out)
  }

  ghost predicate FieldsMirror(c: Settings, objects: Objects, fields: seq<(string, Value)>, path: set<nat>,
                               may: set<nat>, depth: nat, outs: seq<(string, Out)>) {
    |outs| == |fields| && forall k ::
      0 <= k < |fields| ==> PlaceMirrors(c, objects, fields, k, path, may, depth, outs[k])
  }

  lemma EarlierFieldMirrors(c: Settings, objects: Objects, fields: seq<(string, Value)>, k: nat, path: set<nat>,
                            may: set<nat>, depth: nat, out: (string, Out))
    requires k < |fields| - 1 && PlaceMirrors(c, objects, fields[..|fields| - 1], k, path, may, depth, out)
    ensures PlaceMirrors(c, objects, fields, k, path, may, depth, out)
  {
    assert fields[..|fields| - 1][..k] == fields[..k];
  }

  lemma OneMoreFieldMirrors(c: Settings, objects: Objects, fields: seq<(string, Value)>, path: set<nat>, may: set<nat>,
                            depth: nat, before: seq<(string, Out)>, out: (string, Out))
    requires fields != [] && FieldsMirror(c, objects, fields[..|fields| - 1], path, may, depth, before)
    requires PlaceMirrors(c, objects, fields, |fields| - 1, path, may, depth, out)
    ensures FieldsMirror(c, objects, fields, path, may, depth, before + [out])
  {
    forall k | 0 <= k < |before| ensures PlaceMirrors(c, objects, fields, k, path, may, depth, before[k]) {
      EarlierFieldMirrors(c, objects, fields, k, path, may, depth, before[k]);
    }
  }

  /** What a walk meets is within reach. */
  lemma {:induction false} WalkWithin(c: Settings, objects: Objects, v: Value, seen: set<nat>, depth: nat)
    requires c.Valid()
    ensures c.Walked(objects, v, seen, depth).1 <= seen + Reach(objects, v, Left(depth))
    decreases MAX_DEPTH + 1 - depth, 1, 0
  {
    if depth <= MAX_DEPTH && v.Ref? && v.id in objects && v.id !in seen {
      ObjectWithin(c, objects, v.id, seen + {v.id}, depth);
    }
  }

  lemma {:induction false} ObjectWithin(c: Settings, objects: Objects, id: nat, seen: set<nat>, depth: nat)
    requires c.Valid() && id in objects && depth <= MAX_DEPTH
    ensures c.WalkedObject(objects, id, seen, depth).1 <= seen + ReachOf(objects, objects[id], Left(depth + 1))
    decreases MAX_DEPTH + 1 - depth, 0, 0
  {
    match objects[id] {
      case ArrayOf(items) => ItemsWithin(c, objects, items, seen, depth + 1);
      case ErrorOf(_, _, _, cause) => WalkWithin(c, objects, cause, seen, depth + 1);
      case Plain(fields) => FieldsWithin(c, objects, fields, seen, depth + 1);
      case _ =>
    }
  }

  lemma {:induction false} ItemsWithin(c: Settings, objects: Objects, items: seq<Value>, seen: set<nat>, depth: nat)
    requires c.Valid() && depth <= MAX_DEPTH + 1
    ensures c.WalkedItems(objects, items, seen, depth).1 <= seen + ReachAll(objects, items, Left(depth))
    decreases MAX_DEPTH + 1 - depth, 2, |items|
  {
    if items != [] {
      var last := |items| - 1;
      ItemsWithin(c, objects, items[..last], seen, depth);
      WalkWithin(c, objects, items[last], c.WalkedItems(objects, items[..last], seen, depth).1, depth);
    }
  }

  lemma {:induction false} FieldsWithin(c: Settings, objects: Objects, fields: seq<(string, Value)>, seen: set<nat>,
                                        depth: nat)
    requires c.Valid() && depth <= MAX_DEPTH + 1
    ensures c.WalkedFields(objects, fields, seen, depth).1 <= seen + ReachFields(objects, fields, Left(depth))
    decreases MAX_DEPTH + 1 - depth, 2, |fields|
  {
    if fields != [] {
      var last := |fields| - 1;
      FieldsWithin(c, objects, fields[..last], seen, depth);
      WalkWithin(c, objects, fields[last].1, c.WalkedFields(objects, fields[..last], seen, depth).1, depth);
    }
  }

  lemma RedactedIsKept(c: Settings, t: string)
    requires c.Valid()
    ensures TextKept(c, t, c.Redacted(t))
  {
    ReplacedIffExchanged(c.maskUrls(t), c.secrets, c.Redacted(t));
  }

  /** Strings are kept but for URLs and secrets, numbers as they are, arrays and objects in their form. */
  lemma {:induction false} WalkMirrors(c: Settings, objects: Objects, v: Value, path: set<nat>, seen: set<nat>,
                                       may: set<nat>, depth: nat)
    requires c.Valid() && path <= seen <= may
    ensures Mirrors(c, objects, v, path, may, depth, c.Walked(objects, v, seen, depth).0)
    decreases MAX_DEPTH + 1 - depth, 1, 0
  {
    if depth <= MAX_DEPTH {
      match v {
        case Text(t) => RedactedIsKept(c, t);
        case Ref(id) =>
          if id in objects && id !in seen {
            ObjectIsMirrored(c, objects, id, path + {id}, seen + {id}, may + {id}, depth);
            assert c.Walked(objects, v, seen, depth) == c.WalkedObject(objects, id, seen + {id}, depth);
          }
        case _ =>
      }
    }
  }

  lemma {:induction false} ObjectIsMirrored(c: Settings, objects: Objects, id: nat, path: set<nat>, seen: set<nat>,
                                            may: set<nat>, depth: nat)
    requires c.Valid() && id in objects && depth <= MAX_DEPTH && path <= seen <= may
    ensures ObjectMirrors(c, objects, objects[id], id, path, may, depth, c.WalkedObject(objects, id, seen, depth).0)
    decreases MAX_DEPTH + 1 - depth, 0, 0
  {
    match objects[id] {
      case ArrayOf(items) => ItemsAreMirrored(c, objects, items, path, seen, may, depth + 1);
      case ErrorOf(_, message, stack, cause) =>
        RedactedIsKept(c, message);
        RedactedIsKept(c, stack);
        if cause.Truthy() {
          WalkMirrors(c, objects, cause, path, seen, may, depth + 1);
        }
      case Plain(fields) => FieldsAreMirrored(c, objects, fields, path, seen, may, depth + 1);
      case _ =>
    }
  }

  lemma {:induction false} ItemsAreMirrored(c: Settings, objects: Objects, items: seq<Value>, path: set<nat>,
                                            seen: set<nat>, may: set<nat>, depth: nat)
    requires c.Valid() && depth <= MAX_DEPTH + 1 && path <= seen <= may
    ensures ItemsMirror(c, objects, items, path, may, depth, c.WalkedItems(objects, items, seen, depth).0)
    decreases MAX_DEPTH + 1 - depth, 2, |items|
  {
    if items != [] {
      var last := |items| - 1;
      var (before, met) := c.WalkedItems(objects, items[..last], seen, depth);
      ItemsAreMirrored(c, objects, items[..last], path, seen, may, depth);
      ItemsMeet(c, objects, items[..last], seen, depth);
      ItemsWithin(c, objects, items[..last], seen, depth);
      WalkMirrors(c, objects, items[last], path, met, may + ReachAll(objects, items[..last], Left(depth)), depth);
      OneMoreMirrors(c, objects, items, path, may, depth, before, c.Walked(objects, items[last], met, depth).0);
    }
  }

  lemma {:induction false} FieldsAreMirrored(c: Settings, objects: Objects, fields: seq<(string, Value)>,
                                             path: set<nat>, seen: set<nat>, may: set<nat>, depth: nat)
    requires c.Valid() && depth <= MAX_DEPTH + 1 && path <= seen <= may
    ensures FieldsMirror(c, objects, fields, path, may, depth, c.WalkedFields(objects, fields, seen, depth).0)
    decreases MAX_DEPTH + 1 - depth, 2, |fields|
  {
    if fields != [] {
      var last := |fields| - 1;
      var (before, met) := c.WalkedFields(objects, fields[..last], seen, depth);
      var (key, v) := fields[last];
      FieldsAreMirrored(c, objects, fields[..last], path, seen, may, depth);
      FieldsMeet(c, objects, fields[..last], seen, depth);
      FieldsWithin(c, objects, fields[..last], seen, depth);
      WalkMirrors(c, objects, v, path, met, may + ReachFields(objects, fields[..last], Left(depth)), depth);
      var out := if c.secretKey(key) then OMarker(REDACTED) else c.Walked(objects, v, met, depth).0;
      assert c.WalkedFields(objects, fields, seen, depth).0 == before + [(key, out)];
      OneMoreFieldMirrors(c, objects, fields, path, may, depth, before, (key, out));
    }
  }

  // ---------------------------------------------------------------------------
  // The redactor
  // ---------------------------------------------------------------------------

  function Position(s: seq<string>, x: string): (k: nat)
    ensures k <= |s| && (k < |s| ==> s[k] == x) && (k == |s| ==> x !in s)
  {
    if s == [] || s[0] == x then 0 else 1 + Position(s[1..], x)
  }

  /** A secret is remembered once, and only when it is long enough. */
  function Remembering(secrets: seq<string>, secret: string): seq<string> {
    if |secret| >= MIN_TRACKED_LENGTH && secret !in secrets then secrets + [secret] else secrets
  }

  function AllRemembered(initial: seq<string>): seq<string> {
    if initial == [] then [] else Remembering(AllRemembered(initial[..|initial| - 1]), initial[|initial| - 1])
  }

  lemma {:induction false} RememberedIff(initial: seq<string>, s: string)
    ensures s in AllRemembered(initial) <==> s in initial && |s| >= MIN_TRACKED_LENGTH
  {
    if initial != [] {
      RememberedIff(initial[..|initial| - 1], s);
    }
  }

  class SecretRedactor {
    const maskUrls: string -> string
    const secretKey: string -> bool
    /** The remembered secrets, each once, in the order they came. */
    var secrets: seq<string>

    ghost predicate Valid()
      reads this
    {
      AllTracked(secrets) && Distinct(secrets)
    }

    function Current(): Settings
      reads this
    {
      Settings(maskUrls, secretKey, secrets)
    }

    constructor (maskUrls: string -> string, secretKey: string -> bool, initial: seq<string>)
      ensures Valid()
      ensures forall s :: s in secrets <==> s in initial && |s| >= MIN_TRACKED_LENGTH
    {
      this.maskUrls, this.secretKey := maskUrls, secretKey;
      secrets := [];
      new;
      for k := 0 to |initial|
        invariant Valid() && secrets == AllRemembered(initial[..k])
      {
        Remember(initial[k]);
        assert initial[..k + 1][..k] == initial[..k];
      }
      assert initial[..|initial|] == initial;
      forall s ensures s in secrets <==> s in initial && |s| >= MIN_TRACKED_LENGTH {
        RememberedIff(initial, s);
      }
    }

    method Remember(secret: string)
      requires Valid()
      modifies this`secrets
      ensures Valid()
      ensures secrets == Remembering(old(secrets), secret)
    {
      if |secret| >= MIN_TRACKED_LENGTH && secret !in secrets {
        secrets := secrets + [secret];
      }
    }

    method Forget(secret: string)
      requires Valid()
      modifies this`secrets
      ensures Valid()
      ensures forall s :: s in secrets <==> s in old(secrets) && s != secret
    {
      var k := Position(secrets, secret);
      if k < |secrets| {
        secrets := secrets[..k] + secrets[k + 1..];
      }
    }

    /** The text without credentials in URLs and without any remembered secret. */
    method RedactText(value: string) returns (out: string)
      requires Valid()
      ensures out == Current().Redacted(value)
      ensures TextKept(Current(), value, out)
      ensures (forall s :: s in secrets ==> !Occurs(s, maskUrls(value))) ==> out == maskUrls(value)
      ensures forall s :: s in secrets && !Overlaps(s) ==> !Occurs(s, out)
    {
      out := maskUrls(value);
      for k := 0 to |secrets|
        invariant ReplaceEach(out, secrets[k..]) == Current().Redacted(value)
      {
        assert secrets[k..][1..] == secrets[k + 1..];
        out := ReplaceAll(out, secrets[k]);
      }
      RedactedIsKept(Current(), value);
      if forall s :: s in secrets ==> !Occurs(s, maskUrls(value)) {
        CleanIsKept(maskUrls(value), secrets);
      }
      forall s | s in secrets && !Overlaps(s) ensures !Occurs(s, out) {
        RedactedIsClean(Current(), value, s);
      }
    }

    method RedactValue(objects: Objects, v: Value) returns (out: Out)
      requires Valid()
      ensures out == Current().Walked(objects, v, {}, 0).0
      ensures Mirrors(Current(), objects, v, {}, {}, 0, out)
      ensures forall s :: s in secrets && !Overlaps(s) ==> Safe(Current(), out, s)
      ensures forall s :: s in secrets && !Overlaps(s) ==>
        (Shown(out, s) <==> LabelMet(objects, {}, Current().Walked(objects, v, {}, 0).1, s) || InMarker(out, s))
      ensures forall s :: s in secrets && !Overlaps(s) && Unlabelled(objects, s) && !FixedMarker(s) ==> !Shown(out, s)
    {
      var seen;
      out, seen := Walk(objects, v, {}, 0);
      WalkMirrors(Current(), objects, v, {}, {}, {}, 0);
      forall s | s in secrets && !Overlaps(s)
        ensures Safe(Current(), out, s)
        ensures Shown(out, s) <==> LabelMet(objects, {}, seen, s) || InMarker(out, s)
      {
        WalkIsSafe(Current(), objects, v, {}, 0, s);
        ShownIff(Current(), objects, v, {}, 0, s);
      }
      forall s | s in secrets && !Overlaps(s) && Unlabelled(objects, s) && !FixedMarker(s) ensures !Shown(out, s) {
        HiddenWhenUnlabelled(Current(), objects, v, s);
      }
    }

    method Walk(objects: Objects, v: Value, seen: set<nat>, depth: nat) returns (out: Out, after: set<nat>)
      requires Valid()
      ensures (out, after) == Current().Walked(objects, v, seen, depth)
      decreases MAX_DEPTH + 1 - depth, 1, 0
    {
      if depth > MAX_DEPTH {
        return OMarker("[depth-limit]"), seen;
      }
      match v {
        case Null => return ONull, seen;
        case Text(t) =>
          var text := RedactText(t);
          return OText(text), seen;
        case Scalar(n) => return OScalar(n), seen;
        case Ref(id) =>
          if id !in objects {
            return ONull, seen;
          }
          if id in seen {
            return OMarker("[circular]"), seen;
          }
          out, after := WalkObject(objects, id, seen + {id}, depth);
      }
    }

    method WalkObject(objects: Objects, id: nat, seen: set<nat>, depth: nat) returns (out: Out, after: set<nat>)
      requires Valid() && id in objects && depth <= MAX_DEPTH
      ensures (out, after) == Current().WalkedObject(objects, id, seen, depth)
      decreases MAX_DEPTH + 1 - depth, 0, 0
    {
      after := seen;
      match objects[id] {
        case ArrayOf(items) =>
          var outs := [];
          for k := 0 to |items|
            invariant (outs, after) == Current().WalkedItems(objects, items[..k], seen, depth + 1)
          {
            assert items[..k + 1][..k] == items[..k];
            var item;
            item, after := Walk(objects, items[k], after, depth + 1);
            outs := outs + [item];
          }
          assert items[..|items|] == items;
          out := OArray(outs);
        case ErrorOf(name, message, stack, cause) =>
          var text := RedactText(message);
          var trace := None;
          if stack != "" {
            var t := RedactText(stack);
            trace := Some(t);
          }
          var because := None;
          if cause.Truthy() {
            var c;
            c, after := Walk(objects, cause, seen, depth + 1);
            because := Some(c);
          }
          out := OError(name, text, trace, because);
        case DateOf => out := ODate(id);
        case MapOf => out := OMarker("[map]");
        case SetOf => out := OMarker("[set]");
        case BufferOf(length) => out := OMarker(BufferMarker(length));
        case Plain(fields) =>
          var outs := [];
          for k := 0 to |fields|
            invariant (outs, after) == Current().WalkedFields(objects, fields[..k], seen, depth + 1)
          {
            assert fields[..k + 1][..k] == fields[..k];
            var (key, v) := fields[k];
            if secretKey(key) {
              outs := outs + [(key, OMarker(REDACTED))];
            } else {
              var field;
              field, after := Walk(objects, v, after, depth + 1);
              outs := outs + [(key, field)];
            }
          }
          assert fields[..|fields|] == fields;
          out := OPlain(outs);
      }
    }
  }
}
