/**
 Normalising exported metadata: file_reference_hex becomes file_reference, a bytes
 field that is a Python literal becomes hex, everything else is walked.
 */
module SeedJson {
  import opened Wrappers
  import opened PythonLiteral

  datatype Json =
    | Null
    | Bool(b: bool)
    | Number(text: string)
    | Text(bytes: Bytes)
    | List(items: seq<Json>)
    | Object(fields: map<string, Json>)

  const HEX_KEY := "file_reference_hex"
  const KEY := "file_reference"
  const BYTES_KEY := "bytes"

  /** The field names after the rename. */
  function Names(f: map<string, Json>): set<string> {
    if HEX_KEY in f then f.Keys - {HEX_KEY} + {KEY} else f.Keys
  }

  /** The value a field has after the rename, before it is normalised. */
  function Field(f: map<string, Json>, k: string): (j: Json)
    requires k in Names(f)
    ensures j in f.Values
  {
    if k == KEY && HEX_KEY in f then f[HEX_KEY] else f[k]
  }

  function NormaliseText(t: Bytes): Option<Json> {
    match ToHex(t)
    case NotLiteral => Some(Text(t))
    case Malformed => None
    case Converted(hex) => Some(Text(hex))
  }

  function Normalise(j: Json): Option<Json>
    decreases j, 0
  {
    match j
    case List(items) =>
      if exists i :: 0 <= i < |items| && Normalise(items[i]).None? then None
      else Some(List(seq(|items|, i requires 0 <= i < |items| => Normalise(items[i]).value)))
    case Object(f) =>
      if exists k :: k in Names(f) && NormaliseField(k, Field(f, k)).None? then None
      else Some(Object(map k | k in Names(f) :: NormaliseField(k, Field(f, k)).value))
    case _ => Some(j)
  }

  function NormaliseField(k: string, j: Json): Option<Json>
    decreases j, 1
  {
    if k == BYTES_KEY && j.Text? then NormaliseText(j.bytes) else Normalise(j)
  }

  /** The rewrite of normalizeSeedJSON, field by field and item by item. */
  method NormaliseSeed(j: Json) returns (ok: bool, r: Json)
    ensures ok <==> Normalise(j).Some?
    ensures ok ==> r == Normalise(j).value
    decreases j, 2
  {
    match j
    case List(items) => ok, r := NormaliseList(j);
    case Object(f) => ok, r := NormaliseObject(j);
    case _ => ok, r := true, j;
  }

  method NormaliseList(j: Json) returns (ok: bool, r: Json)
    requires j.List?
    ensures ok <==> Normalise(j).Some?
    ensures ok ==> r == Normalise(j).value
    decreases j, 1
  {
    var v := j.items;
    for i := 0 to |v|
      invariant |v| == |j.items|
      invariant forall k :: 0 <= k < i ==> Normalise(j.items[k]) == Some(v[k])
      invariant forall k :: i <= k < |v| ==> v[k] == j.items[k]
    {
      var good, child := NormaliseSeed(v[i]);
      if !good { return false, j; }
      v := v[i := child];
    }
    return true, List(v);
  }

  /** file_reference_hex, when present, replaces file_reference. */
  method Rename(f: map<string, Json>) returns (v: map<string, Json>)
    ensures v.Keys == Names(f) && forall k :: k in v ==> v[k] == Field(f, k)
  {
    v := f;
    if HEX_KEY in v {
      v := v[KEY := v[HEX_KEY]];
      v := v - {HEX_KEY};
    }
  }

  lemma AllFields(f: map<string, Json>, v: map<string, Json>)
    requires v.Keys == Names(f) && forall k :: k in v ==> NormaliseField(k, Field(f, k)) == Some(v[k])
    ensures Normalise(Object(f)) == Some(Object(v))
  {
    assert Normalise(Object(f)).value.fields == v;
  }

  method NormaliseObject(j: Json) returns (ok: bool, r: Json)
    requires j.Object?
    ensures ok <==> Normalise(j).Some?
    ensures ok ==> r == Normalise(j).value
    decreases j, 1
  {
    var v := Rename(j.fields);
    var todo := v.Keys;
    while todo != {}
      invariant v.Keys == Names(j.fields) && todo <= v.Keys
      invariant forall k :: k in todo ==> v[k] == Field(j.fields, k)
      invariant forall k :: k in v && k !in todo ==> NormaliseField(k, Field(j.fields, k)) == Some(v[k])
      decreases todo
    {
      var k :| k in todo;
      todo := todo - {k};
      var good, child := NormaliseOne(j, k, v[k]);
      if !good { return false, j; }
      v := v[k := child];
    }
    AllFields(j.fields, v);
    return true, Object(v);
  }

  method NormaliseOne(ghost parent: Json, k: string, value: Json) returns (ok: bool, r: Json)
    requires parent.Object? && value in parent.fields.Values
    ensures ok <==> NormaliseField(k, value).Some?
    ensures ok ==> r == NormaliseField(k, value).value
    decreases parent, 0
  {
    if k == BYTES_KEY && value.Text? {
      var conversion := PythonBytesLiteralToHex(value.bytes);
      if conversion.Malformed? { return false, value; }
      return true, if conversion.Converted? then Text(conversion.hex) else value;
    }
    ok, r := NormaliseSeed(value);
  }

  lemma NormaliseTextTwice(t: Bytes)
    requires NormaliseText(t).Some?
    ensures NormaliseText(t).value.Text? && NormaliseText(NormaliseText(t).value.bytes) == NormaliseText(t)
  {
    if ToHex(t).Converted? { HexIsNotLiteral(Decode(t[2..|t| - 1]).value); }
  }

  lemma {:induction false} FieldTwice(k: string, j: Json)
    requires NormaliseField(k, j).Some?
    ensures NormaliseField(k, NormaliseField(k, j).value) == NormaliseField(k, j)
    decreases j, 1
  {
    if k == BYTES_KEY && j.Text? {
      NormaliseTextTwice(j.bytes);
    } else {
      NormaliseIdempotent(j);
      if Normalise(j).value.Text? { assert Normalise(j).value == j; }
    }
  }

  /** A tree that normalises is left unchanged by a second pass. */
  lemma {:induction false} NormaliseIdempotent(j: Json)
    requires Normalise(j).Some?
    ensures Normalise(Normalise(j).value) == Normalise(j)
    decreases j, 0
  {
    match j
    case List(items) =>
      forall i | 0 <= i < |items| ensures Normalise(Normalise(items[i]).value) == Normalise(items[i]) {
        NormaliseIdempotent(items[i]);
      }
      FixedList(Normalise(j).value.items);
    case Object(f) =>
      var out := Normalise(j).value.fields;
      forall k | k in out ensures NormaliseField(k, out[k]) == Some(out[k]) {
        FieldTwice(k, Field(f, k));
      }
      FixedObject(out);
    case _ =>
  }

  lemma FixedList(items: seq<Json>)
    requires forall i :: 0 <= i < |items| ==> Normalise(items[i]) == Some(items[i])
    ensures Normalise(List(items)) == Some(List(items))
  {
    assert Normalise(List(items)).value.items == items;
  }

  lemma FixedObject(f: map<string, Json>)
    requires HEX_KEY !in f && forall k :: k in f ==> NormaliseField(k, f[k]) == Some(f[k])
    ensures Normalise(Object(f)) == Some(Object(f))
  {
    assert Names(f) == f.Keys && forall k :: k in f ==> Field(f, k) == f[k];
    assert Normalise(Object(f)).value.fields == f;
  }

  // ---- what the rewrite does ----

  /** A text under "bytes": a literal became the hex of what it stands for, any other text is as it was. */
  ghost predicate BytesRewritten(t: Bytes, out: Json) {
    && (forall b, quote :: (quote == SINGLE || quote == DOUBLE) && t == Repr(b, quote) ==> out == Text(Hex(b)))
    && (|t| < 3 || t[0] != LETTER_B || (t[1] != SINGLE && t[1] != DOUBLE) ==> out == Text(t))
  }

  /** The tree with the renaming and the literals rewritten everywhere, and nothing else changed. */
  ghost predicate Rewritten(j: Json, out: Json)
    decreases j, 0
  {
    match j
    case List(items) =>
      out.List? && |out.items| == |items| && forall i :: 0 <= i < |items| ==> Rewritten(items[i], out.items[i])
    case Object(f) =>
      && out.Object? && "file_reference_hex" !in out.fields
      && (forall k :: k in out.fields <==>
            k != "file_reference_hex" && (k in f || (k == "file_reference" && "file_reference_hex" in f)))
      && (forall k :: k in f && k != "file_reference_hex" ==>
            || (k == "file_reference" && "file_reference_hex" in f)
            || FieldRewritten(k, f[k], out.fields[k]))
      && ("file_reference_hex" in f ==> Rewritten(f["file_reference_hex"], out.fields["file_reference"]))
    case _ => out == j
  }

  ghost predicate FieldRewritten(k: string, j: Json, out: Json)
    decreases j, 1
  {
    if k == "bytes" && j.Text? then BytesRewritten(j.bytes, out) else Rewritten(j, out)
  }

  lemma TextRewrites(t: Bytes)
    requires NormaliseText(t).Some?
    ensures BytesRewritten(t, NormaliseText(t).value)
  {
    forall b, quote | (quote == SINGLE || quote == DOUBLE) && t == Repr(b, quote)
      ensures NormaliseText(t).value == Text(Hex(b))
    {
      ReprRoundTrip(b, quote);
    }
  }

  /** Normalising renames and decodes, at every depth, and changes nothing else. */
  lemma {:induction false} NormaliseRewrites(j: Json)
    requires Normalise(j).Some?
    ensures Rewritten(j, Normalise(j).value)
    decreases j, 0
  {
    match j
    case List(items) =>
      forall i | 0 <= i < |items| ensures Rewritten(items[i], Normalise(items[i]).value) {
        NormaliseRewrites(items[i]);
      }
    case Object(f) =>
      forall k | k in Names(f) ensures FieldRewritten(k, Field(f, k), NormaliseField(k, Field(f, k)).value) {
        FieldRewrites(k, Field(f, k));
      }
      if HEX_KEY in f { assert Field(f, KEY) == f[HEX_KEY] && KEY in Names(f); }
      assert forall k :: k in f && k != HEX_KEY && !(k == KEY && HEX_KEY in f) ==> k in Names(f) && Field(f, k) == f[k];
    case _ =>
  }

  lemma {:induction false} FieldRewrites(k: string, j: Json)
    requires NormaliseField(k, j).Some?
    ensures FieldRewritten(k, j, NormaliseField(k, j).value)
    decreases j, 1
  {
    if k == BYTES_KEY && j.Text? { TextRewrites(j.bytes); } else { NormaliseRewrites(j); }
  }
}
