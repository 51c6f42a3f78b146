/**
 * `CopyPasteTRS` and the copy/paste extension (`v2/extensions/copy_paste_trs.py`):
 * two class-level stores of translate/rotate/scale values, filled from the
 * scene by `_copy` and written back, scaled by a multiplier, by `_paste`.
 *
 * The transforms' vector attributes are a map from plug name
 * (`"{transform}.{attr}"`) to value, separate from the local matrices the
 * rest of the model reads.
 */
module CopyPaste {
  import opened Wrappers
  import opened Host
  import OD = OrderedDict
  import Text
  import SolverModel
  import BlenderModel
  import SolverPoses
  import Solver
  import Session

  datatype Vec3 = Vec3(x: real, y: real, z: real)

  /** The vector attributes of the scene's transforms, by plug. */
  type Channels = map<string, Vec3>

  /** What is kept for one transform: attribute name to value. */
  type Record = OD.Dict<string, Vec3>

  /** `TRS_DRIVEN_DATA` / `TRS_DRIVER_DATA`: transform to record. */
  type Store = OD.Dict<string, Record>

  function Plug(transform: string, attr: string): string
  {
    transform + "." + attr
  }

  const Trs: seq<string> := ["translate", "rotate", "scale"]
  const RotateScale: seq<string> := ["rotate", "scale"]

  /** `if not attributes: attributes = ['translate', 'rotate', 'scale']`. */
  function Attributes(given: seq<string>): (r: seq<string>)
    ensures given != [] ==> r == given
    ensures given == [] ==> r == Trs
  {
    if given == [] then Trs else given
  }

  /** `"{transform}"` of a driven transform: Python formats a missing one as `None`. */
  function Formatted(t: Option<string>): string
  {
    match t
    case Some(name) => name
    case None => "None"
  }

  /** The names `driven_nodes` lists for the solver's blenders, as `_copy` formats them. */
  function DrivenNames(bs: seq<BlenderModel.Blender>): (r: seq<string>)
    ensures |r| == |bs| && forall j :: 0 <= j < |bs| ==> r[j] == Formatted(bs[j].driven)
  {
    seq(|bs|, j requires 0 <= j < |bs| => Formatted(bs[j].driven))
  }

  // ------------------------------------------------------------ _copy

  /**
   * The record comprehension of `_copy`: each attribute's value in turn,
   * added to `rec`; `getAttr` of a plug that does not exist raises.
   */
  function ReadRecord(rec: Record, transform: string, attrs: seq<string>, ch: Channels): Result<Record>
    decreases |attrs|
  {
    if attrs == [] then Ok(rec)
    else if Plug(transform, attrs[0]) !in ch then Err(ValueError)
    else ReadRecord(OD.Put(rec, attrs[0], ch[Plug(transform, attrs[0])]), transform, attrs[1..], ch)
  }

  /**
   * The loop of `_copy` after `clear()`: one record per transform, added to
   * `store` in order (a repeated transform's record replaces the earlier one
   * in its place); the first missing plug ends it, with the records before
   * it kept.
   */
  function CopyFrom(store: Store, ts: seq<string>, attrs: seq<string>, ch: Channels): (Outcome, Store)
    decreases |ts|
  {
    if ts == [] then (Done, store)
    else
      match ReadRecord([], ts[0], attrs, ch)
      case Err(e) => (Err(e), store)
      case Ok(rec) => CopyFrom(OD.Put(store, ts[0], rec), ts[1..], attrs, ch)
  }

  /** Every plug of these transforms and attributes exists. */
  predicate Readable(ts: seq<string>, attrs: seq<string>, ch: Channels)
  {
    forall i, j :: 0 <= i < |ts| && 0 <= j < |attrs| ==> Plug(ts[i], attrs[j]) in ch
  }

  /** A record holds exactly the plugs' current values, under the attribute names. */
  predicate RecordOf(rec: Record, transform: string, ch: Channels)
  {
    forall j :: 0 <= j < |rec| ==> Plug(transform, rec[j].0) in ch && rec[j].1 == ch[Plug(transform, rec[j].0)]
  }

  /** Every record of the store is its transform's current values, and carries a scale. */
  predicate Snapshot(store: Store, ch: Channels)
  {
    forall i :: 0 <= i < |store| ==> RecordOf(store[i].1, store[i].0, ch) && "scale" in OD.Keys(store[i].1)
  }

  /** Reading a record succeeds exactly when every plug exists. */
  lemma {:induction false} ReadRecordOk(rec: Record, transform: string, attrs: seq<string>, ch: Channels)
    ensures ReadRecord(rec, transform, attrs, ch).Ok? <==> forall j :: 0 <= j < |attrs| ==> Plug(transform, attrs[j]) in ch
    decreases |attrs|
  {
    if attrs != [] && Plug(transform, attrs[0]) in ch {
      ReadRecordOk(OD.Put(rec, attrs[0], ch[Plug(transform, attrs[0])]), transform, attrs[1..], ch);
      assert forall j :: 1 <= j < |attrs| ==> attrs[j] == attrs[1..][j - 1];
    }
  }

  /**
   * A record that was read holds the current value of every attribute,
   * under unique keys, and nothing else.
   */
  lemma {:induction false} ReadRecordFacts(rec: Record, transform: string, attrs: seq<string>, ch: Channels)
    requires OD.UniqueKeys(rec) && RecordOf(rec, transform, ch)
    requires ReadRecord(rec, transform, attrs, ch).Ok?
    ensures var r := ReadRecord(rec, transform, attrs, ch).value;
      && OD.UniqueKeys(r) && RecordOf(r, transform, ch)
      && (forall a :: a in OD.Keys(r) <==> a in OD.Keys(rec) || a in attrs)
    decreases |attrs|
  {
    if attrs != [] {
      var a := attrs[0];
      var next := OD.Put(rec, a, ch[Plug(transform, a)]);
      OD.PutKeepsUnique(rec, a, ch[Plug(transform, a)]);
      PutRecordOf(rec, transform, a, ch);
      ReadRecordFacts(next, transform, attrs[1..], ch);
      assert forall b :: b in attrs <==> b == a || b in attrs[1..];
    } else {
      assert forall b :: b !in attrs;
    }
  }

  /** Putting a plug's current value keeps a record faithful. */
  lemma PutRecordOf(rec: Record, transform: string, a: string, ch: Channels)
    requires OD.UniqueKeys(rec) && RecordOf(rec, transform, ch) && Plug(transform, a) in ch
    ensures RecordOf(OD.Put(rec, a, ch[Plug(transform, a)]), transform, ch)
  {
    var v := ch[Plug(transform, a)];
    var r := OD.Put(rec, a, v);
    forall j | 0 <= j < |r| ensures Plug(transform, r[j].0) in ch && r[j].1 == ch[Plug(transform, r[j].0)] {
      var k := r[j].0;
      OD.PutKeepsUnique(rec, a, v);
      OD.LookupAt(r, j);
      if k == a {
        assert OD.Lookup(r, a) == Some(v);
      } else {
        assert k in OD.Keys(r);
        assert OD.Lookup(rec, k) == Some(r[j].1);
        var i :| 0 <= i < |rec| && rec[i] == (k, r[j].1);
      }
    }
  }

  /**
   * `_copy` into an empty store succeeds exactly when every plug exists.
   * Its result then has one entry per listed transform and no other, each
   * holding that transform's current values of the attributes, scale among
   * them when asked for.
   */
  lemma {:induction false} CopyFacts(store: Store, ts: seq<string>, attrs: seq<string>, ch: Channels)
    requires OD.UniqueKeys(store)
    requires forall i :: 0 <= i < |store| ==> RecordOf(store[i].1, store[i].0, ch)
    requires forall i :: 0 <= i < |store| ==> forall a :: a in OD.Keys(store[i].1) <==> a in attrs
    requires forall i :: 0 <= i < |store| ==> OD.UniqueKeys(store[i].1)
    ensures CopyFrom(store, ts, attrs, ch).0.Ok? <==> Readable(ts, attrs, ch)
    ensures var (o, r) := CopyFrom(store, ts, attrs, ch);
      o.Ok? ==>
        && OD.UniqueKeys(r)
        && (forall t :: t in OD.Keys(r) <==> t in OD.Keys(store) || t in ts)
        && (forall i :: 0 <= i < |r| ==> RecordOf(r[i].1, r[i].0, ch))
        && (forall i :: 0 <= i < |r| ==> forall a :: a in OD.Keys(r[i].1) <==> a in attrs)
        && (forall i :: 0 <= i < |r| ==> OD.UniqueKeys(r[i].1))
    decreases |ts|
  {
    if ts != [] {
      var t := ts[0];
      ReadRecordOk([], t, attrs, ch);
      var read := ReadRecord([], t, attrs, ch);
      if read.Ok? {
        ReadRecordFacts([], t, attrs, ch);
        var next := OD.Put(store, t, read.value);
        OD.PutKeepsUnique(store, t, read.value);
        PutStoreFacts(store, t, read.value, attrs, ch);
        CopyFacts(next, ts[1..], attrs, ch);
        assert forall i :: 0 <= i < |ts[1..]| ==> ts[1..][i] == ts[i + 1];
        assert forall u :: u in ts <==> u == t || u in ts[1..];
        if Readable(ts, attrs, ch) {
          assert Readable(ts[1..], attrs, ch);
        }
        if Readable(ts[1..], attrs, ch) {
          forall i, j | 0 <= i < |ts| && 0 <= j < |attrs| ensures Plug(ts[i], attrs[j]) in ch {
            if i > 0 {
              assert ts[i] == ts[1..][i - 1];
            }
          }
        }
      } else {
        var j :| 0 <= j < |attrs| && Plug(t, attrs[j]) !in ch;
        assert !Readable(ts, attrs, ch) by {
          assert Plug(ts[0], attrs[j]) !in ch;
        }
      }
    } else {
      assert forall u :: u !in ts;
    }
  }

  /** Putting a faithful record for `t` keeps every record faithful and keyed by `attrs`. */
  lemma PutStoreFacts(store: Store, t: string, rec: Record, attrs: seq<string>, ch: Channels)
    requires OD.UniqueKeys(store) && RecordOf(rec, t, ch) && (forall a :: a in OD.Keys(rec) <==> a in attrs)
    requires OD.UniqueKeys(rec) && forall i :: 0 <= i < |store| ==> OD.UniqueKeys(store[i].1)
    requires forall i :: 0 <= i < |store| ==> RecordOf(store[i].1, store[i].0, ch)
    requires forall i :: 0 <= i < |store| ==> forall a :: a in OD.Keys(store[i].1) <==> a in attrs
    ensures var r := OD.Put(store, t, rec);
      && (forall i :: 0 <= i < |r| ==> RecordOf(r[i].1, r[i].0, ch))
      && (forall i :: 0 <= i < |r| ==> forall a :: a in OD.Keys(r[i].1) <==> a in attrs)
      && (forall i :: 0 <= i < |r| ==> OD.UniqueKeys(r[i].1))
  {
    var r := OD.Put(store, t, rec);
    OD.PutKeepsUnique(store, t, rec);
    forall i | 0 <= i < |r|
      ensures RecordOf(r[i].1, r[i].0, ch) && (forall a :: a in OD.Keys(r[i].1) <==> a in attrs) && OD.UniqueKeys(r[i].1)
    {
      var k := r[i].0;
      OD.LookupAt(r, i);
      if k != t {
        assert k in OD.Keys(r);
        assert OD.Lookup(store, k) == Some(r[i].1);
        assert exists q :: 0 <= q < |store| && store[q] == (k, r[i].1);
      }
    }
  }

  /** After a `_copy` that succeeded, with scale among the attributes, the store is a snapshot of the scene. */
  lemma CopySnapshot(ts: seq<string>, given: seq<string>, ch: Channels)
    requires "scale" in Attributes(given)
    requires CopyFrom([], ts, Attributes(given), ch).0.Ok?
    ensures Snapshot(CopyFrom([], ts, Attributes(given), ch).1, ch)
    ensures forall t :: t in OD.Keys(CopyFrom([], ts, Attributes(given), ch).1) <==> t in ts
  {
    CopyFacts([], ts, Attributes(given), ch);
  }

  // ----------------------------------------------------------- _paste

  /** `values[k] * multiplier` for each component. */
  function Scaled(v: Vec3, m: real): Vec3
  {
    Vec3(v.x * m, v.y * m, v.z * m)
  }

  /** `((s - 1.0) * multiplier) + 1` for each component of the copied scale. */
  function ScaleBy(s: Vec3, m: real): (r: Vec3)
    ensures m == 1.0 ==> r == s
    ensures m == 0.0 ==> r == Vec3(1.0, 1.0, 1.0)
  {
    Vec3((s.x - 1.0) * m + 1.0, (s.y - 1.0) * m + 1.0, (s.z - 1.0) * m + 1.0)
  }

  /** `cmds.setAttr` inside `try`/`except`: writing a plug that does not exist is reported and skipped. */
  function SetPlug(ch: Channels, plug: string, v: Vec3): (r: Channels)
    ensures plug in ch ==> r == ch[plug := v]
    ensures plug !in ch ==> r == ch
  {
    if plug in ch then ch[plug := v] else ch
  }

  /** The inner loop of `_paste`: every attribute of the record, multiplied. */
  function PasteAttrs(ch: Channels, transform: string, rec: Record, m: real): Channels
    decreases |rec|
  {
    if rec == [] then ch
    else PasteAttrs(SetPlug(ch, Plug(transform, rec[0].0), Scaled(rec[0].1, m)), transform, rec[1..], m)
  }

  /** One transform of `_paste`: its attributes, then the scale again by the scale formula; `data['scale']` may raise. */
  function PasteEntry(ch: Channels, transform: string, rec: Record, m: real): (Outcome, Channels)
  {
    var written := PasteAttrs(ch, transform, rec, m);
    match OD.Lookup(rec, "scale")
    case None => (Err(KeyError), written)
    case Some(s) => (Done, SetPlug(written, Plug(transform, "scale"), ScaleBy(s, m)))
  }

  /** The outer loop of `_paste`, in store order. */
  function PasteFrom(store: Store, m: real, ch: Channels): (Outcome, Channels)
    decreases |store|
  {
    if store == [] then (Done, ch)
    else
      var (o, next) := PasteEntry(ch, store[0].0, store[0].1, m);
      if o.Err? then (o, next) else PasteFrom(store[1..], m, next)
  }

  /** `_paste`: nothing copied raises TRSError before anything is written. */
  function Paste(store: Store, m: real, ch: Channels): (r: (Outcome, Channels))
    ensures store == [] ==> r == (Err(TRSError), ch)
    ensures store != [] ==> r == PasteFrom(store, m, ch)
  {
    if store == [] then (Err(TRSError), ch) else PasteFrom(store, m, ch)
  }

  /** Writing a plug's own value changes nothing. */
  lemma {:induction false} PasteAttrsUnit(ch: Channels, transform: string, rec: Record)
    requires RecordOf(rec, transform, ch)
    ensures PasteAttrs(ch, transform, rec, 1.0) == ch
    decreases |rec|
  {
    if rec != [] {
      var p := Plug(transform, rec[0].0);
      assert Scaled(rec[0].1, 1.0) == ch[p];
      assert ch[p := ch[p]] == ch;
      assert RecordOf(rec[1..], transform, ch) by {
        assert forall j :: 0 <= j < |rec[1..]| ==> rec[1..][j] == rec[j + 1];
      }
      PasteAttrsUnit(ch, transform, rec[1..]);
    }
  }

  /**
   * Pasting a snapshot with multiplier 1 puts back what was copied: the
   * attributes keep their values.
   */
  lemma {:induction false} PasteUnitRestores(store: Store, ch: Channels)
    requires Snapshot(store, ch)
    ensures PasteFrom(store, 1.0, ch) == (Done, ch)
    decreases |store|
  {
    if store != [] {
      var (t, rec) := store[0];
      PasteAttrsUnit(ch, t, rec);
      var s := OD.Lookup(rec, "scale").value;
      assert ("scale", s) in rec;
      var j :| 0 <= j < |rec| && rec[j] == ("scale", s);
      assert s == ch[Plug(t, "scale")];
      assert ch[Plug(t, "scale") := s] == ch;
      assert Snapshot(store[1..], ch) by {
        assert forall i :: 0 <= i < |store[1..]| ==> store[1..][i] == store[i + 1];
      }
      PasteUnitRestores(store[1..], ch);
    }
  }

  /** One transform's paste ends with its scale at the scale formula of the copied scale. */
  lemma PasteEntryScale(ch: Channels, transform: string, rec: Record, m: real)
    requires "scale" in OD.Keys(rec)
    ensures PasteEntry(ch, transform, rec, m).0 == Done
    ensures var after := PasteEntry(ch, transform, rec, m).1;
      Plug(transform, "scale") in after <==> Plug(transform, "scale") in ch
    ensures var after := PasteEntry(ch, transform, rec, m).1;
      Plug(transform, "scale") in ch ==> after[Plug(transform, "scale")] == ScaleBy(OD.Lookup(rec, "scale").value, m)
  {
    PasteAttrsKeys(ch, transform, rec, m);
  }

  /** The inner loop writes only plugs that exist. */
  lemma {:induction false} PasteAttrsKeys(ch: Channels, transform: string, rec: Record, m: real)
    ensures PasteAttrs(ch, transform, rec, m).Keys == ch.Keys
    decreases |rec|
  {
    if rec != [] {
      PasteAttrsKeys(SetPlug(ch, Plug(transform, rec[0].0), Scaled(rec[0].1, m)), transform, rec[1..], m);
    }
  }

  /** Within one transform, distinct attributes name distinct plugs. */
  lemma PlugInjective(t: string, a: string, b: string)
    requires Plug(t, a) == Plug(t, b)
    ensures a == b
  {
    assert Plug(t, a)[|t| + 1..] == a;
    assert Plug(t, b)[|t| + 1..] == b;
  }

  /** Node names hold no dot, so a plug names its transform. */
  lemma PlugTransform(t: string, a: string, u: string, b: string)
    requires Text.Free(t, '.') && Text.Free(u, '.') && Plug(t, a) == Plug(u, b)
    ensures t == u
  {
    assert Plug(t, a) == t + ['.'] + a && Plug(u, b) == u + ['.'] + b;
    Text.BeforeFirstOf(t, '.', a);
    Text.BeforeFirstOf(u, '.', b);
  }

  /** Plugs on two different dot-free transforms differ. */
  lemma PlugsApart(t: string, a: string, u: string, b: string)
    requires Text.Free(t, '.') && Text.Free(u, '.') && t != u
    ensures Plug(t, a) != Plug(u, b)
  {
    if Plug(t, a) == Plug(u, b) {
      PlugTransform(t, a, u, b);
    }
  }

  /** `p` is the plug of one of the record's attributes on `t`. */
  predicate OfRecord(p: string, t: string, rec: Record)
  {
    exists j :: 0 <= j < |rec| && p == Plug(t, rec[j].0)
  }

  /**
   * What `_paste` with multiplier `m` leaves on the existing plugs of one
   * stored transform: every attribute but scale its copied value times `m`,
   * and scale `((s - 1) * m) + 1`.
   */
  predicate EntryPasted(t: string, rec: Record, m: real, keys: set<string>, after: Channels)
  {
    && (forall j :: 0 <= j < |rec| && rec[j].0 != "scale" && Plug(t, rec[j].0) in keys ==>
          Plug(t, rec[j].0) in after && after[Plug(t, rec[j].0)] == Scaled(rec[j].1, m))
    && ("scale" in OD.Keys(rec) && Plug(t, "scale") in keys ==>
          Plug(t, "scale") in after && after[Plug(t, "scale")] == ScaleBy(OD.Lookup(rec, "scale").value, m))
  }

  /** The inner loop sets each existing plug of the record to its value times `m`, and no other plug. */
  lemma {:induction false} PasteAttrsValues(ch: Channels, t: string, rec: Record, m: real)
    requires OD.UniqueKeys(rec)
    ensures PasteAttrs(ch, t, rec, m).Keys == ch.Keys
    ensures forall j :: 0 <= j < |rec| && Plug(t, rec[j].0) in ch ==>
      PasteAttrs(ch, t, rec, m)[Plug(t, rec[j].0)] == Scaled(rec[j].1, m)
    ensures forall p :: p in ch && !OfRecord(p, t, rec) ==> PasteAttrs(ch, t, rec, m)[p] == ch[p]
    decreases |rec|
  {
    PasteAttrsKeys(ch, t, rec, m);
    if rec != [] {
      var rest := rec[1..];
      var first := Plug(t, rec[0].0);
      var ch1 := SetPlug(ch, first, Scaled(rec[0].1, m));
      assert OD.UniqueKeys(rest) by {
        forall i, j | 0 <= i < j < |rest| ensures rest[i].0 != rest[j].0 {
          assert rest[i] == rec[i + 1] && rest[j] == rec[j + 1];
        }
      }
      PasteAttrsValues(ch1, t, rest, m);
      var r := PasteAttrs(ch, t, rec, m);
      assert r == PasteAttrs(ch1, t, rest, m);
      assert !OfRecord(first, t, rest) by {
        forall j | 0 <= j < |rest| ensures first != Plug(t, rest[j].0) {
          assert rest[j] == rec[j + 1];
          if first == Plug(t, rest[j].0) {
            PlugInjective(t, rec[0].0, rest[j].0);
          }
        }
      }
      forall j | 0 <= j < |rec| && Plug(t, rec[j].0) in ch ensures r[Plug(t, rec[j].0)] == Scaled(rec[j].1, m) {
        if j > 0 {
          assert rec[j] == rest[j - 1];
        }
      }
      forall p | p in ch && !OfRecord(p, t, rec) ensures r[p] == ch[p] {
        assert p != first;
        assert !OfRecord(p, t, rest) by {
          forall j | 0 <= j < |rest| ensures p != Plug(t, rest[j].0) {
            assert rest[j] == rec[j + 1];
          }
        }
      }
    }
  }

  /** One transform's paste: its record's plugs as `EntryPasted` says, every other plug untouched. */
  lemma PasteEntryValues(ch: Channels, t: string, rec: Record, m: real)
    requires OD.UniqueKeys(rec) && "scale" in OD.Keys(rec)
    ensures PasteEntry(ch, t, rec, m).0 == Done
    ensures PasteEntry(ch, t, rec, m).1.Keys == ch.Keys
    ensures EntryPasted(t, rec, m, ch.Keys, PasteEntry(ch, t, rec, m).1)
    ensures forall p :: p in ch && !OfRecord(p, t, rec) ==> PasteEntry(ch, t, rec, m).1[p] == ch[p]
  {
    PasteAttrsValues(ch, t, rec, m);
    var s := Plug(t, "scale");
    var after := PasteEntry(ch, t, rec, m).1;
    var i :| 0 <= i < |rec| && rec[i].0 == "scale";
    assert OfRecord(s, t, rec);
    forall j | 0 <= j < |rec| && rec[j].0 != "scale" && Plug(t, rec[j].0) in ch
      ensures after[Plug(t, rec[j].0)] == Scaled(rec[j].1, m)
    {
      if Plug(t, rec[j].0) == s {
        PlugInjective(t, rec[j].0, "scale");
      }
    }
  }

  /** What the first transform's entry pasted survives the later entries, whose plugs are all apart from its own. */
  lemma HeadSurvives(t: string, rec: Record, rest: Store, m: real, keys: set<string>, next: Channels, after: Channels)
    requires Text.Free(t, '.') && forall i :: 0 <= i < |rest| ==> rest[i].0 != t && Text.Free(rest[i].0, '.')
    requires EntryPasted(t, rec, m, keys, next) && next.Keys == keys && after.Keys == keys
    requires forall p :: p in next && (forall i :: 0 <= i < |rest| ==> !OfRecord(p, rest[i].0, rest[i].1)) ==> after[p] == next[p]
    ensures EntryPasted(t, rec, m, keys, after)
  {
    forall p | p in next && OfRecord(p, t, rec) ensures after[p] == next[p] {
      var j :| 0 <= j < |rec| && p == Plug(t, rec[j].0);
      forall i | 0 <= i < |rest| ensures !OfRecord(p, rest[i].0, rest[i].1) {
        forall k | 0 <= k < |rest[i].1| ensures p != Plug(rest[i].0, rest[i].1[k].0) {
          PlugsApart(t, rec[j].0, rest[i].0, rest[i].1[k].0);
        }
      }
    }
    forall j | 0 <= j < |rec| && Plug(t, rec[j].0) in keys ensures after[Plug(t, rec[j].0)] == next[Plug(t, rec[j].0)] {
      assert OfRecord(Plug(t, rec[j].0), t, rec);
    }
    if "scale" in OD.Keys(rec) && Plug(t, "scale") in keys {
      var j :| 0 <= j < |rec| && rec[j].0 == "scale";
      assert OfRecord(Plug(t, "scale"), t, rec);
    }
  }

  /**
   * `_paste` with any multiplier `m`, over a store with one record per
   * transform, each keyed once per attribute and holding scale: it
   * succeeds, every existing plug of every stored attribute ends as
   * `EntryPasted` says, and no other plug changes.
   */
  lemma {:induction false} PasteFromValues(store: Store, m: real, ch: Channels)
    requires OD.UniqueKeys(store)
    requires forall i :: 0 <= i < |store| ==>
      OD.UniqueKeys(store[i].1) && "scale" in OD.Keys(store[i].1) && Text.Free(store[i].0, '.')
    ensures PasteFrom(store, m, ch).0 == Done
    ensures PasteFrom(store, m, ch).1.Keys == ch.Keys
    ensures forall i :: 0 <= i < |store| ==> EntryPasted(store[i].0, store[i].1, m, ch.Keys, PasteFrom(store, m, ch).1)
    ensures forall p :: p in ch && (forall i :: 0 <= i < |store| ==> !OfRecord(p, store[i].0, store[i].1)) ==>
      PasteFrom(store, m, ch).1[p] == ch[p]
    decreases |store|
  {
    if store != [] {
      var (t, rec) := store[0];
      var rest := store[1..];
      PasteEntryValues(ch, t, rec, m);
      var next := PasteEntry(ch, t, rec, m).1;
      StoreTail(store);
      PasteFromValues(rest, m, next);
      var after := PasteFrom(store, m, ch).1;
      assert after == PasteFrom(rest, m, next).1;
      HeadSurvives(t, rec, rest, m, ch.Keys, next, after);
      PastedJoin(store, m, ch, next, after);
    }
  }

  /** The entries after the first meet `PasteFromValues`' demands, under names apart from the first's. */
  lemma StoreTail(store: Store)
    requires store != [] && OD.UniqueKeys(store)
    requires forall i :: 0 <= i < |store| ==>
      OD.UniqueKeys(store[i].1) && "scale" in OD.Keys(store[i].1) && Text.Free(store[i].0, '.')
    ensures OD.UniqueKeys(store[1..])
    ensures forall i :: 0 <= i < |store| - 1 ==>
      (OD.UniqueKeys(store[1..][i].1) && "scale" in OD.Keys(store[1..][i].1)
       && Text.Free(store[1..][i].0, '.') && store[1..][i].0 != store[0].0)
  {
    var rest := store[1..];
    forall i, j | 0 <= i < j < |rest| ensures rest[i].0 != rest[j].0 {
      assert rest[i] == store[i + 1] && rest[j] == store[j + 1];
    }
    forall i | 0 <= i < |rest| ensures OD.UniqueKeys(rest[i].1) && "scale" in OD.Keys(rest[i].1) && Text.Free(rest[i].0, '.') && rest[i].0 != store[0].0 {
      assert rest[i] == store[i + 1];
    }
  }

  /** The first entry's paste and the later entries' together make the paste of the whole store. */
  lemma PastedJoin(store: Store, m: real, ch: Channels, next: Channels, after: Channels)
    requires store != [] && next.Keys == ch.Keys && after.Keys == ch.Keys
    requires EntryPasted(store[0].0, store[0].1, m, ch.Keys, after)
    requires forall i :: 0 <= i < |store| - 1 ==> EntryPasted(store[1..][i].0, store[1..][i].1, m, ch.Keys, after)
    requires forall p :: p in ch && !OfRecord(p, store[0].0, store[0].1) ==> next[p] == ch[p]
    requires forall p :: p in next && (forall i :: 0 <= i < |store| - 1 ==> !OfRecord(p, store[1..][i].0, store[1..][i].1)) ==> after[p] == next[p]
    ensures forall i :: 0 <= i < |store| ==> EntryPasted(store[i].0, store[i].1, m, ch.Keys, after)
    ensures forall p :: p in ch && (forall i :: 0 <= i < |store| ==> !OfRecord(p, store[i].0, store[i].1)) ==> after[p] == ch[p]
  {
    var rest := store[1..];
    forall i | 0 <= i < |store| ensures EntryPasted(store[i].0, store[i].1, m, ch.Keys, after) {
      if i > 0 {
        assert store[i] == rest[i - 1];
      }
    }
    forall p | p in ch && (forall i :: 0 <= i < |store| ==> !OfRecord(p, store[i].0, store[i].1)) ensures after[p] == ch[p] {
      assert !OfRecord(p, store[0].0, store[0].1);
      assert forall i :: 0 <= i < |rest| ==> !OfRecord(p, rest[i].0, rest[i].1) by {
        forall i | 0 <= i < |rest| ensures !OfRecord(p, rest[i].0, rest[i].1) {
          assert rest[i] == store[i + 1];
        }
      }
    }
  }

  /**
   * The existing plugs of the copied transforms and attributes hold their
   * values at copy time times `m`, scale by the scale formula.
   */
  predicate CopiedScaled(ts: seq<string>, attrs: seq<string>, ch: Channels, m: real, after: Channels)
  {
    forall i, j :: 0 <= i < |ts| && 0 <= j < |attrs| && Plug(ts[i], attrs[j]) in after && Plug(ts[i], attrs[j]) in ch ==>
      after[Plug(ts[i], attrs[j])] ==
        if attrs[j] == "scale" then ScaleBy(ch[Plug(ts[i], attrs[j])], m) else Scaled(ch[Plug(ts[i], attrs[j])], m)
  }

  /**
   * `_copy` then `_paste` with any multiplier: pasting onto the scene as it
   * is now writes, on each copied transform, every attribute but scale as
   * its value at copy time times `m`, and scale by the scale formula,
   * wherever the plug still exists. (`_copy` succeeds exactly when the
   * plugs are readable, by `CopyFacts`.)
   */
  lemma CopyPasteScaled(ts: seq<string>, given: seq<string>, ch: Channels, m: real, now: Channels)
    requires "scale" in Attributes(given) && ts != []
    requires forall i :: 0 <= i < |ts| ==> Text.Free(ts[i], '.')
    requires Readable(ts, Attributes(given), ch)
    ensures CopyFrom([], ts, Attributes(given), ch).0.Ok?
    ensures var r := Paste(CopyFrom([], ts, Attributes(given), ch).1, m, now);
      r.0 == Done && r.1.Keys == now.Keys && CopiedScaled(ts, Attributes(given), ch, m, r.1)
  {
    var attrs := Attributes(given);
    CopyFacts([], ts, attrs, ch);
    PasteCopied(CopyFrom([], ts, attrs, ch).1, ts, attrs, ch, m, now);
  }

  /** `CopyPasteScaled` for a store with the properties `CopyFacts` gives a copy. */
  lemma PasteCopied(store: Store, ts: seq<string>, attrs: seq<string>, ch: Channels, m: real, now: Channels)
    requires ts != [] && forall i :: 0 <= i < |ts| ==> Text.Free(ts[i], '.')
    requires "scale" in attrs
    requires OD.UniqueKeys(store)
    requires forall t :: t in OD.Keys(store) <==> t in ts
    requires forall i :: 0 <= i < |store| ==> RecordOf(store[i].1, store[i].0, ch)
    requires forall i :: 0 <= i < |store| ==> forall a :: a in OD.Keys(store[i].1) <==> a in attrs
    requires forall i :: 0 <= i < |store| ==> OD.UniqueKeys(store[i].1)
    ensures var r := Paste(store, m, now);
      r.0 == Done && r.1.Keys == now.Keys && CopiedScaled(ts, attrs, ch, m, r.1)
  {
    assert ts[0] in OD.Keys(store);
    StoreFree(store, ts);
    PasteFromValues(store, m, now);
    var after := Paste(store, m, now).1;
    assert after == PasteFrom(store, m, now).1;
    forall i, j | 0 <= i < |ts| && 0 <= j < |attrs| && Plug(ts[i], attrs[j]) in after && Plug(ts[i], attrs[j]) in ch
      ensures after[Plug(ts[i], attrs[j])] ==
        if attrs[j] == "scale" then ScaleBy(ch[Plug(ts[i], attrs[j])], m) else Scaled(ch[Plug(ts[i], attrs[j])], m)
    {
      assert ts[i] in OD.Keys(store);
      var k :| 0 <= k < |store| && store[k].0 == ts[i];
      CopiedEntry(ts[i], store[k].1, attrs[j], m, ch, after);
    }
  }

  /** Every transform of the copied store is one of the dot-free transforms it was copied from. */
  lemma StoreFree(store: Store, ts: seq<string>)
    requires forall t :: t in OD.Keys(store) ==> t in ts
    requires forall i :: 0 <= i < |ts| ==> Text.Free(ts[i], '.')
    ensures forall i :: 0 <= i < |store| ==> Text.Free(store[i].0, '.')
  {
    forall i | 0 <= i < |store| ensures Text.Free(store[i].0, '.') {
      assert store[i].0 in OD.Keys(store);
    }
  }

  /** One copied record, pasted: `EntryPasted` read back as values at copy time. */
  lemma CopiedEntry(t: string, rec: Record, a: string, m: real, ch: Channels, after: Channels)
    requires OD.UniqueKeys(rec) && RecordOf(rec, t, ch) && a in OD.Keys(rec)
    requires EntryPasted(t, rec, m, after.Keys, after)
    requires Plug(t, a) in after
    ensures Plug(t, a) in ch
    ensures after[Plug(t, a)] == if a == "scale" then ScaleBy(ch[Plug(t, a)], m) else Scaled(ch[Plug(t, a)], m)
  {
    var q :| 0 <= q < |rec| && rec[q].0 == a;
    OD.LookupAt(rec, q);
  }

  // ------------------------------------------------------------ store

  class CopyPasteTrs {
    /** `TRS_DRIVEN_DATA`. */
    var driven: Store
    /** `TRS_DRIVER_DATA`. */
    var driver: Store

    constructor ()
      ensures driven == [] && driver == []
    {
      driven := [];
      driver := [];
    }

    /** `copy_driven`: the solver's driven transforms, translate, rotate and scale. */
    method CopyDriven(solver: Solver.RbfNode, ch: Channels) returns (r: Outcome)
      modifies this
      ensures (r, driven) == CopyFrom([], DrivenNames(old(solver.blenders)), Trs, ch)
      ensures driver == old(driver)
    {
      r := CopyInto(true, DrivenNames(solver.blenders), [], ch);
    }

    /** `copy_driver`: the solver's drivers, rotate and scale only. */
    method CopyDriver(solver: Solver.RbfNode, ch: Channels) returns (r: Outcome)
      modifies this
      ensures (r, driver) == CopyFrom([], old(solver.drivers), RotateScale, ch)
      ensures driven == old(driven)
    {
      r := CopyInto(false, solver.drivers, RotateScale, ch);
    }

    /** `_copy` into the driven store (`toDriven`) or the driver store: cleared, then one record per transform. */
    method CopyInto(toDriven: bool, ts: seq<string>, given: seq<string>, ch: Channels) returns (r: Outcome)
      modifies this
      ensures toDriven ==> (r, driven) == CopyFrom([], ts, Attributes(given), ch) && driver == old(driver)
      ensures !toDriven ==> (r, driver) == CopyFrom([], ts, Attributes(given), ch) && driven == old(driven)
    {
      var attrs := if given == [] then Trs else given;
      if toDriven {
        driven := [];
      } else {
        driver := [];
      }
      var k := 0;
      while k < |ts|
        invariant 0 <= k <= |ts|
        invariant toDriven ==> CopyFrom(driven, ts[k..], attrs, ch) == CopyFrom([], ts, attrs, ch) && driver == old(driver)
        invariant !toDriven ==> CopyFrom(driver, ts[k..], attrs, ch) == CopyFrom([], ts, attrs, ch) && driven == old(driven)
      {
        assert ts[k..][0] == ts[k] && ts[k..][1..] == ts[k + 1..];
        var rec := ReadRecord([], ts[k], attrs, ch);
        if rec.Err? {
          return Err(rec.error);
        }
        if toDriven {
          driven := OD.Put(driven, ts[k], rec.value);
        } else {
          driver := OD.Put(driver, ts[k], rec.value);
        }
        k := k + 1;
      }
      assert ts[k..] == [];
      r := Done;
    }

    /** `paste_driven`. The stores are only read. */
    method PasteDriven(m: real, ch: Channels) returns (r: Outcome, after: Channels)
      ensures (r, after) == Paste(driven, m, ch)
    {
      r, after := PasteStore(driven, m, ch);
    }

    /** `paste_driver`. */
    method PasteDriver(m: real, ch: Channels) returns (r: Outcome, after: Channels)
      ensures (r, after) == Paste(driver, m, ch)
    {
      r, after := PasteStore(driver, m, ch);
    }
  }

  /** `_paste`: the loops over the store's transforms and each record's attributes. */
  method PasteStore(store: Store, m: real, ch: Channels) returns (r: Outcome, after: Channels)
    ensures (r, after) == Paste(store, m, ch)
  {
    if store == [] {
      return Err(TRSError), ch;
    }
    after := ch;
    var i := 0;
    while i < |store|
      invariant 0 <= i <= |store|
      invariant PasteFrom(store[i..], m, after) == PasteFrom(store, m, ch)
    {
      PasteFromStep(store, i, m, after);
      var (transform, rec) := store[i];
      after := PasteRecord(transform, rec, m, after);
      var scale := OD.Lookup(rec, "scale");
      if scale.None? {
        return Err(KeyError), after;
      }
      after := SetPlug(after, Plug(transform, "scale"), ScaleBy(scale.value, m));
      i := i + 1;
    }
    assert store[i..] == [];
    r := Done;
  }

  /** `PasteFrom` on a suffix of the store, one transform unfolded. */
  lemma PasteFromStep(store: Store, i: nat, m: real, ch: Channels)
    requires i < |store|
    ensures PasteFrom(store[i..], m, ch) ==
      var (o, next) := PasteEntry(ch, store[i].0, store[i].1, m);
      if o.Err? then (o, next) else PasteFrom(store[i + 1..], m, next)
  {
    assert store[i..][0] == store[i] && store[i..][1..] == store[i + 1..];
  }

  /** The inner loop of `_paste`: each attribute of one record, multiplied. */
  method PasteRecord(transform: string, rec: Record, m: real, ch: Channels) returns (after: Channels)
    ensures after == PasteAttrs(ch, transform, rec, m)
  {
    after := ch;
    var j := 0;
    while j < |rec|
      invariant 0 <= j <= |rec|
      invariant PasteAttrs(after, transform, rec[j..], m) == PasteAttrs(ch, transform, rec, m)
    {
      assert rec[j..][0] == rec[j] && rec[j..][1..] == rec[j + 1..];
      after := SetPlug(after, Plug(transform, rec[j].0), Scaled(rec[j].1, m));
      j := j + 1;
    }
    assert rec[j..] == [];
  }

  // -------------------------------------------------------- extension

  /** `copy_driven_trs`: the given solver, else the current one; without either, `None.driven_nodes` raises. */
  method CopyDrivenTrs(api: Session.PoseWranglerApi, store: CopyPasteTrs, solver: Solver.RbfNode?, ch: Channels)
    returns (r: Outcome)
    modifies store
    ensures var s := if solver != null then solver else api.current;
      && (s == null ==> r == Err(AttributeError) && store.driven == old(store.driven))
      && (s != null ==> (r, store.driven) == CopyFrom([], DrivenNames(s.blenders), Trs, ch))
    ensures store.driver == old(store.driver)
  {
    var s := if solver != null then solver else api.current;
    if s == null {
      return Err(AttributeError);
    }
    r := store.CopyDriven(s, ch);
  }

  /** `copy_driver_trs`. */
  method CopyDriverTrs(api: Session.PoseWranglerApi, store: CopyPasteTrs, solver: Solver.RbfNode?, ch: Channels)
    returns (r: Outcome)
    modifies store
    ensures var s := if solver != null then solver else api.current;
      && (s == null ==> r == Err(AttributeError) && store.driver == old(store.driver))
      && (s != null ==> (r, store.driver) == CopyFrom([], s.drivers, RotateScale, ch))
    ensures store.driven == old(store.driven)
  {
    var s := if solver != null then solver else api.current;
    if s == null {
      return Err(AttributeError);
    }
    r := store.CopyDriver(s, ch);
  }

  /**
   * `paste_driven_trs`: the solver (the given one, else the current one) is
   * put into edit mode first when it is not editing, then the driven store
   * is pasted.
   */
  method PasteDrivenTrs(api: Session.PoseWranglerApi, store: CopyPasteTrs, solver: Solver.RbfNode?, m: real,
                        scene: Scene, ch: Channels)
    returns (r: Outcome, after: Channels)
    modifies api, if solver != null then {solver} else {api.current}
    ensures var s := if solver != null then solver else old(api.current);
      && (s == null ==> r == Err(AttributeError) && after == ch)
      && (s != null && SolverPoses.EditStatus(old(s.Net())) ==>
            s.Net() == old(s.Net()) && api.current == old(api.current) && (r, after) == Paste(store.driven, m, ch))
      && (s != null && !SolverPoses.EditStatus(old(s.Net())) ==>
            match SolverPoses.EditSolver(old(s.Net()), true, scene)
            case Err(e) => r == Err(e) && after == ch
            case Ok(n) => s.Net() == n && api.current == s && (r, after) == Paste(store.driven, m, ch))
  {
    var s := if solver != null then solver else api.current;
    if s == null {
      return Err(AttributeError), ch;
    }
    var editing := s.GetSolverEditStatus();
    if !editing {
      r := api.EditSolver(true, s, scene);
      if r.Err? {
        return r, ch;
      }
    }
    r, after := store.PasteDriven(m, ch);
  }

  /** `paste_driver_trs`. */
  method PasteDriverTrs(store: CopyPasteTrs, m: real, ch: Channels) returns (r: Outcome, after: Channels)
    ensures (r, after) == Paste(store.driver, m, ch)
  {
    r, after := store.PasteDriver(m, ch);
  }
}
