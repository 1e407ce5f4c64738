/** The default value codec of the SQLite store: `encodeNode`, `decodeNode` and the tagged bytes around them. */
module StoreCodec {
  import opened Basics
  import opened Bytes
  import Base64

  // ----- values in memory -----

  type Ref = nat

  /** `Other` stands for undefined, functions, symbols and big integers. */
  datatype Value = Null | Bool(bool) | Num(real) | NotFinite | Str(string) | Other | Obj(ref: Ref)

  /** `Foreign` stands for an object that is neither an array nor plain. */
  datatype Object =
    | Data(data: seq<Byte>)
    | Array(items: seq<Value>)
    | Plain(keys: seq<string>, items: seq<Value>)
    | Foreign

  type Heap = map<Ref, Object>

  function Kids(o: Object): seq<Value> { if o.Array? || o.Plain? then o.items else [] }

  predicate InHeap(h: Heap, v: Value) { v.Obj? ==> v.ref in h }

  ghost predicate Closed(h: Heap) {
    forall r :: r in h ==>
      && (forall i :: 0 <= i < |Kids(h[r])| ==> InHeap(h, Kids(h[r])[i]))
      && (h[r].Plain? ==> |h[r].keys| == |h[r].items| && NoDup(h[r].keys))
  }

  // ----- JSON -----

  datatype Json = JNull | JBool(bool) | JNum(real) | JStr(text: string) | JArr(items: seq<Json>)

  function Tag(name: string, body: Json): Json { JArr([JStr(name), body]) }

  function Pairs(keys: seq<string>, js: seq<Json>): (r: seq<Json>)
    requires |keys| == |js|
    ensures |r| == |js| && forall i :: 0 <= i < |js| ==> r[i] == JArr([JStr(keys[i]), js[i]])
  {
    seq(|js|, i requires 0 <= i < |js| => JArr([JStr(keys[i]), js[i]]))
  }

  function Encoded(o: Object, kids: seq<Json>): Json
    requires o.Plain? ==> |o.keys| == |kids|
  {
    if o.Plain? then Tag("object", JArr(Pairs(o.keys, kids))) else Tag("array", JArr(kids))
  }

  /** What `encodeNode` computes; `None` stands for the errors it throws. `seen` holds the objects on the path. */
  ghost function Encode(h: Heap, v: Value, seen: set<Ref>): Option<Json>
    requires Closed(h) && InHeap(h, v)
    decreases |h.Keys - seen|, 0
  {
    match v
    case Null => Some(JNull)
    case Bool(b) => Some(JBool(b))
    case Num(n) => Some(JNum(n))
    case Str(s) => Some(JStr(s))
    case NotFinite => None
    case Other => None
    case Obj(r) =>
      if h[r].Data? then Some(Tag("bytes", JStr(Base64.ToText(h[r].data))))
      else if r in seen || h[r].Foreign? then None
      else
        PathGrows(h, seen, r);
        var kids := EncodeAll(h, Kids(h[r]), seen + {r});
        if kids.None? then None else Some(Encoded(h[r], kids.value))
  }

  ghost function EncodeAll(h: Heap, vs: seq<Value>, seen: set<Ref>): (js: Option<seq<Json>>)
    requires Closed(h) && forall i :: 0 <= i < |vs| ==> InHeap(h, vs[i])
    ensures js.Some? ==> |js.value| == |vs|
    decreases |h.Keys - seen|, |vs| + 1
  {
    if vs == [] then Some([])
    else
      var first, rest := Encode(h, vs[0], seen), EncodeAll(h, vs[1..], seen);
      if first.None? || rest.None? then None else Some([first.value] + rest.value)
  }

  /** The forms of bytes, arrays and objects: a pair of a tag and the rest. */
  lemma EncodedForms(h: Heap, r: Ref, seen: set<Ref>)
    requires Closed(h) && r in h && Encode(h, Obj(r), seen).Some?
    ensures var j := Encode(h, Obj(r), seen).value;
            && j.JArr? && |j.items| == 2
            && match h[r]
               case Data(data) => j.items[0] == JStr("bytes") && j.items[1] == JStr(Base64.ToText(data))
               case Array(vs) =>
                 && j.items[0] == JStr("array") && j.items[1].JArr? && |j.items[1].items| == |vs|
                 && forall i :: 0 <= i < |vs| ==> Encode(h, vs[i], seen + {r}) == Some(j.items[1].items[i])
               case Plain(keys, vs) =>
                 && j.items[0] == JStr("object") && j.items[1].JArr? && |j.items[1].items| == |keys|
                 && forall i :: 0 <= i < |keys| ==>
                      var e := Encode(h, vs[i], seen + {r});
                      e.Some? && j.items[1].items[i] == JArr([JStr(keys[i]), e.value])
               case Foreign => false
  {
    if !h[r].Data? { EncodedEach(h, Kids(h[r]), seen + {r}); }
  }

  lemma {:induction false} EncodedEach(h: Heap, vs: seq<Value>, seen: set<Ref>)
    requires Closed(h) && (forall i :: 0 <= i < |vs| ==> InHeap(h, vs[i])) && EncodeAll(h, vs, seen).Some?
    ensures forall i :: 0 <= i < |vs| ==> Encode(h, vs[i], seen) == Some(EncodeAll(h, vs, seen).value[i])
    decreases |vs|
  {
    hide Encode;
    if vs != [] {
      EncodedEach(h, vs[1..], seen);
      assert forall i :: 1 <= i < |vs| ==> vs[i] == vs[1..][i - 1];
    }
  }

  /** Fewer objects are left off the path. */
  lemma PathGrows(h: Heap, seen: set<Ref>, r: Ref)
    requires r in h && r !in seen
    ensures |h.Keys - (seen + {r})| < |h.Keys - seen|
  {
    assert h.Keys - seen == h.Keys - (seen + {r}) + {r};
  }

  // ----- decoding -----

  /** A value rebuilt from JSON. */
  datatype Tree = TNull | TBool(bool) | TNum(real) | TStr(string) | TData(data: seq<Byte>)
    | TArray(items: seq<Tree>) | TObject(keys: seq<string>, items: seq<Tree>)

  datatype Fields = Fields(keys: seq<string>, items: seq<Tree>)

  /** `Object.fromEntries`, one entry at a time: a repeated key keeps its place and takes the new value. */
  function Assign(f: Fields, key: string, t: Tree): Fields {
    var i := IndexOf(f.keys, key);
    if i == -1 then Fields(f.keys + [key], f.items + [t])
    else if i < |f.items| then f.(items := f.items[i := t]) else f
  }

  /** `decodeNode`; `None` stands for an error. */
  function Decode(j: Json): Option<Tree>
    decreases j, 0
  {
    match j
    case JNull => Some(TNull)
    case JBool(b) => Some(TBool(b))
    case JNum(n) => Some(TNum(n))
    case JStr(s) => Some(TStr(s))
    case JArr(xs) =>
      if |xs| < 2 then None
      else if xs[0] == JStr("bytes") then
        var data := if xs[1].JStr? then Base64.FromText(xs[1].text) else None;
        if data.None? then None else Some(TData(data.value))
      else if !xs[1].JArr? then None
      else if xs[0] == JStr("array") then
        var items := DecodeItems(xs[1], |xs[1].items|);
        if items.None? then None else Some(TArray(items.value))
      else
        var f := DecodeFields(xs[1], |xs[1].items|);
        if f.None? then None else Some(TObject(f.value.keys, f.value.items))
  }

  function DecodeItems(j: Json, n: nat): Option<seq<Tree>>
    requires j.JArr? && n <= |j.items|
    decreases j, n
  {
    if n == 0 then Some([])
    else
      var front, last := DecodeItems(j, n - 1), Decode(j.items[n - 1]);
      if front.None? || last.None? then None else Some(front.value + [last.value])
  }

  function DecodeFields(j: Json, n: nat): Option<Fields>
    requires j.JArr? && n <= |j.items|
    decreases j, n
  {
    if n == 0 then Some(Fields([], []))
    else
      var front, pair := DecodeFields(j, n - 1), j.items[n - 1];
      if front.None? || !pair.JArr? || |pair.items| < 2 || !pair.items[0].JStr? then None
      else
        var last := Decode(pair.items[1]);
        if last.None? then None else Some(Assign(front.value, pair.items[0].text, last.value))
  }

  // ----- the round trip -----

  /** The tree `t` is the value `v`, with every reference followed. */
  ghost predicate Shows(h: Heap, v: Value, t: Tree)
    decreases t
  {
    match v
    case Null => t == TNull
    case Bool(b) => t == TBool(b)
    case Num(n) => t == TNum(n)
    case Str(s) => t == TStr(s)
    case NotFinite => false
    case Other => false
    case Obj(r) =>
      r in h &&
      match h[r]
      case Data(d) => t == TData(d)
      case Array(vs) => t.TArray? && |t.items| == |vs| && forall i :: 0 <= i < |vs| ==> Shows(h, vs[i], t.items[i])
      case Plain(keys, vs) =>
        t.TObject? && t.keys == keys && |t.items| == |vs| && forall i :: 0 <= i < |vs| ==> Shows(h, vs[i], t.items[i])
      case Foreign => false
  }

  /** A value has at most one tree. */
  lemma {:induction false} ShowsIsFunctional(h: Heap, v: Value, t: Tree, u: Tree)
    requires Shows(h, v, t) && Shows(h, v, u)
    ensures t == u
    decreases t
  {
    if v.Obj? && (h[v.ref].Array? || h[v.ref].Plain?) {
      var vs := h[v.ref].items;
      forall i | 0 <= i < |vs| ensures t.items[i] == u.items[i] {
        ShowsIsFunctional(h, vs[i], t.items[i], u.items[i]);
      }
      assert t.items == u.items;
    }
  }

  lemma {:induction false} ItemsDecode(j: Json, n: nat)
    requires j.JArr? && n <= |j.items| && forall i :: 0 <= i < n ==> Decode(j.items[i]).Some?
    ensures var r := DecodeItems(j, n);
            r.Some? && |r.value| == n && forall i :: 0 <= i < n ==> r.value[i] == Decode(j.items[i]).value
    decreases n
  {
    hide Decode;
    if n > 0 { ItemsDecode(j, n - 1); }
  }

  lemma AssignNew(f: Fields, key: string, t: Tree)
    requires key !in f.keys
    ensures Assign(f, key, t) == Fields(f.keys + [key], f.items + [t])
  {
  }

  lemma {:induction false} FieldsDecode(keys: seq<string>, js: seq<Json>, n: nat)
    requires |keys| == |js| && n <= |js| && NoDup(keys) && forall i :: 0 <= i < n ==> Decode(js[i]).Some?
    ensures var r := DecodeFields(JArr(Pairs(keys, js)), n);
            r.Some? && r.value.keys == keys[..n] && |r.value.items| == n && forall i :: 0 <= i < n ==>
                  r.value.items[i] == Decode(js[i]).value
    decreases n
  {
    hide Decode, Pairs, Assign;
    if n > 0 {
      FieldsDecode(keys, js, n - 1);
      assert keys[n - 1] !in keys[..n - 1];
      AssignNew(DecodeFields(JArr(Pairs(keys, js)), n - 1).value, keys[n - 1], Decode(js[n - 1]).value);
      assert keys[..n] == keys[..n - 1] + [keys[n - 1]];
    }
  }

  /** Whatever is encoded decodes to the value it was encoded from. */
  lemma {:induction false} RoundTrip(h: Heap, v: Value, seen: set<Ref>)
    requires Closed(h) && InHeap(h, v) && Encode(h, v, seen).Some?
    ensures var t := Decode(Encode(h, v, seen).value); t.Some? && Shows(h, v, t.value)
    decreases |h.Keys - seen|, 0
  {
    if v.Obj? {
      if h[v.ref].Data? {
        Base64.TextRoundTrip(h[v.ref].data);
      } else {
        var next := seen + {v.ref};
        PathGrows(h, seen, v.ref);
        RoundTripAll(h, Kids(h[v.ref]), next);
        var js := EncodeAll(h, Kids(h[v.ref]), next).value;
        if h[v.ref].Array? { ItemsDecode(JArr(js), |js|); } else { FieldsDecode(h[v.ref].keys, js, |js|); }
      }
    }
  }

  lemma {:induction false} RoundTripAll(h: Heap, vs: seq<Value>, seen: set<Ref>)
    requires Closed(h) && (forall i :: 0 <= i < |vs| ==> InHeap(h, vs[i])) && EncodeAll(h, vs, seen).Some?
    ensures var js := EncodeAll(h, vs, seen).value;
            forall i :: 0 <= i < |vs| ==> Decode(js[i]).Some? && Shows(h, vs[i], Decode(js[i]).value)
    decreases |h.Keys - seen|, |vs| + 1
  {
    hide Decode, Shows, Encode;
    if vs != [] {
      RoundTrip(h, vs[0], seen);
      RoundTripAll(h, vs[1..], seen);
    }
  }

  // ----- when encoding fails -----

  /** Following the objects of `p` one after the other leads from `v` to `end`. */
  ghost predicate Trail(h: Heap, v: Value, p: seq<Ref>, end: Value)
    decreases |p|
  {
    if p == [] then v == end
    else v == Obj(p[0]) && p[0] in h && exists i :: 0 <= i < |Kids(h[p[0]])| && Trail(h, Kids(h[p[0]])[i], p[1..], end)
  }

  /** The end of a trail is a value the codec has no form for, or an object the trail already went through. */
  ghost predicate Fault(h: Heap, p: seq<Ref>, end: Value, seen: set<Ref>) {
    || end.NotFinite? || end.Other?
    || (end.Obj? && end.ref in h && (h[end.ref].Foreign? || (!h[end.ref].Data? && (end.ref in p || end.ref in seen))))
  }

  lemma {:induction false} NoFault(h: Heap, v: Value, seen: set<Ref>, p: seq<Ref>, end: Value)
    requires Closed(h) && InHeap(h, v) && Encode(h, v, seen).Some? && Trail(h, v, p, end)
    ensures !Fault(h, p, end, seen)
    decreases |p|
  {
    if p != [] {
      var kids, next := Kids(h[p[0]]), seen + {p[0]};
      var i :| 0 <= i < |kids| && Trail(h, kids[i], p[1..], end);
      AllEncoded(h, kids, next, i);
      NoFault(h, kids[i], next, p[1..], end);
      assert p == [p[0]] + p[1..];
    }
  }

  lemma {:induction false} AllEncoded(h: Heap, vs: seq<Value>, seen: set<Ref>, i: nat)
    requires Closed(h) && (forall k :: 0 <= k < |vs| ==> InHeap(h, vs[k])) && i < |vs| && EncodeAll(h, vs, seen).Some?
    ensures Encode(h, vs[i], seen).Some?
    decreases i
  {
    hide Encode;
    if i > 0 { AllEncoded(h, vs[1..], seen, i - 1); }
  }

  lemma {:induction false} FindFault(h: Heap, v: Value, seen: set<Ref>) returns (p: seq<Ref>, end: Value)
    requires Closed(h) && InHeap(h, v) && Encode(h, v, seen).None?
    ensures Trail(h, v, p, end) && Fault(h, p, end, seen)
    decreases |h.Keys - seen|, 0
  {
    p, end := [], v;
    if v.Obj? && v.ref !in seen && !h[v.ref].Foreign? {
      var next := seen + {v.ref};
      PathGrows(h, seen, v.ref);
      var kids := Kids(h[v.ref]);
      var i, q, e := FindFaultAmong(h, kids, next);
      p, end := [v.ref] + q, e;
      assert p[1..] == q && Trail(h, kids[i], p[1..], end);
    }
  }

  lemma {:induction false} FindFaultAmong(h: Heap, vs: seq<Value>, seen: set<Ref>)
      returns (i: nat, p: seq<Ref>, end: Value)
    requires Closed(h) && (forall k :: 0 <= k < |vs| ==> InHeap(h, vs[k])) && EncodeAll(h, vs, seen).None?
    ensures i < |vs| && Trail(h, vs[i], p, end) && Fault(h, p, end, seen)
    decreases |h.Keys - seen|, |vs| + 1
  {
    hide Encode, Trail, Fault;
    if Encode(h, vs[0], seen).None? {
      i := 0;
      p, end := FindFault(h, vs[0], seen);
    } else {
      i, p, end := FindFaultAmong(h, vs[1..], seen);
      i := i + 1;
    }
  }

  /** Encoding fails exactly when a cycle or a value without a form can be reached. */
  lemma EncodeFailsIff(h: Heap, v: Value)
    requires Closed(h) && InHeap(h, v)
    ensures Encode(h, v, {}).None? <==> exists p, end :: Trail(h, v, p, end) && Fault(h, p, end, {})
  {
    hide Encode, Trail, Fault;
    if Encode(h, v, {}).None? {
      var p, end := FindFault(h, v, {});
    } else {
      forall p, end | Trail(h, v, p, end) ensures !Fault(h, p, end, {}) {
        NoFault(h, v, {}, p, end);
      }
    }
  }

  // ----- the code -----

  /** `encodeNode`, with the path set it adds to and takes from. */
  class Encoder {
    const heap: Heap
    var seen: set<Ref>

    constructor (heap: Heap)
      ensures this.heap == heap && seen == {}
    {
      this.heap, seen := heap, {};
    }

    method EncodeNode(v: Value) returns (r: Option<Json>)
      requires Closed(heap) && InHeap(heap, v)
      modifies this
      ensures seen == old(seen) && r == Encode(heap, v, seen)
      decreases |heap.Keys - seen|, 0
    {
      match v
      case Null => return Some(JNull);
      case Bool(b) => return Some(JBool(b));
      case Num(n) => return Some(JNum(n));
      case Str(s) => return Some(JStr(s));
      case NotFinite => return None;
      case Other => return None;
      case Obj(ref) =>
        var o := heap[ref];
        if o.Data? { return Some(Tag("bytes", JStr(Base64.ToText(o.data)))); }
        if ref in seen { return None; }
        PathGrows(heap, seen, ref);
        seen := seen + {ref};
        if o.Foreign? {
          seen := seen - {ref};
          return None;
        }
        var kids := EncodeItems(Kids(o));
        seen := seen - {ref};
        if kids.None? { return None; }
        return Some(Encoded(o, kids.value));
    }

    method EncodeItems(vs: seq<Value>) returns (r: Option<seq<Json>>)
      requires Closed(heap) && forall i :: 0 <= i < |vs| ==> InHeap(heap, vs[i])
      modifies this
      ensures seen == old(seen) && r == EncodeAll(heap, vs, seen)
      decreases |heap.Keys - seen|, 1
    {
      hide Encode, EncodeAll;
      var js: seq<Json> := [];
      ItemsStart(heap, vs, seen);
      for i := 0 to |vs|
        invariant seen == old(seen)
        invariant EncodeAll(heap, vs, seen) == Joined(js, EncodeAll(heap, vs[i..], seen))
      {
        var j := EncodeNode(vs[i]);
        ItemsStep(heap, vs, i, seen, js);
        if j.None? { return None; }
        js := js + [j.value];
      }
      assert vs[|vs|..] == [];
      ItemsEnd(heap, seen, js);
      return Some(js);
    }
  }

  function Joined(js: seq<Json>, rest: Option<seq<Json>>): Option<seq<Json>> {
    if rest.None? then None else Some(js + rest.value)
  }

  lemma ItemsStart(h: Heap, vs: seq<Value>, seen: set<Ref>)
    requires Closed(h) && forall i :: 0 <= i < |vs| ==> InHeap(h, vs[i])
    ensures EncodeAll(h, vs, seen) == Joined([], EncodeAll(h, vs[0..], seen))
  {
    hide EncodeAll;
    assert vs[0..] == vs;
    var r := EncodeAll(h, vs, seen);
    assert r.Some? ==> [] + r.value == r.value;
  }

  lemma ItemsStep(h: Heap, vs: seq<Value>, i: nat, seen: set<Ref>, js: seq<Json>)
    requires Closed(h) && (forall k :: 0 <= k < |vs| ==> InHeap(h, vs[k])) && i < |vs|
    ensures var first := Encode(h, vs[i], seen);
            Joined(js, EncodeAll(h, vs[i..], seen))
              == if first.None? then None else Joined(js + [first.value], EncodeAll(h, vs[i + 1..], seen))
  {
    hide Encode;
    assert vs[i..][0] == vs[i] && vs[i..][1..] == vs[i + 1..];
    var first, rest := Encode(h, vs[i], seen), EncodeAll(h, vs[i + 1..], seen);
    assert first.Some? && rest.Some? ==> js + ([first.value] + rest.value) == js + [first.value] + rest.value;
  }

  lemma ItemsEnd(h: Heap, seen: set<Ref>, js: seq<Json>)
    requires Closed(h)
    ensures forall vs: seq<Value> :: vs == [] ==> Joined(js, EncodeAll(h, vs, seen)) == Some(js)
  {
    assert js + [] == js;
  }

  // ----- the stored bytes -----

  type Stringify = Json -> seq<Byte>
  type Parse = seq<Byte> -> Option<Json>

  /** `defaultSqliteCodec.encode`; `stringify` is JSON.stringify followed by UTF-8. */
  method EncodeValue(h: Heap, v: Value, stringify: Stringify) returns (r: Option<seq<Byte>>)
    requires Closed(h) && InHeap(h, v)
    ensures r == Stored(h, v, stringify)
  {
    if v.Obj? && h[v.ref].Data? { return Some([0] + h[v.ref].data); }
    var encoder := new Encoder(h);
    var j := encoder.EncodeNode(v);
    if j.None? { return None; }
    return Some([1] + stringify(j.value));
  }

  ghost function Stored(h: Heap, v: Value, stringify: Stringify): Option<seq<Byte>>
    requires Closed(h) && InHeap(h, v)
  {
    if v.Obj? && h[v.ref].Data? then Some([0] + h[v.ref].data)
    else
      var j := Encode(h, v, {});
      if j.None? then None else Some([1] + stringify(j.value))
  }

  /** `defaultSqliteCodec.decode`. */
  function DecodeValue(b: seq<Byte>, parse: Parse): Option<Tree> {
    if b == [] then None
    else if b[0] == 0 then Some(TData(b[1..]))
    else if b[0] != 1 || parse(b[1..]).None? then None
    else Decode(parse(b[1..]).value)
  }

  /**
   * What is stored reads back as the value, and it is stored exactly when no cycle and no formless value can be
   * reached.
   */
  lemma StoredRoundTrip(h: Heap, v: Value, stringify: Stringify, parse: Parse)
    requires Closed(h) && InHeap(h, v) && forall j :: parse(stringify(j)) == Some(j)
    ensures var b := Stored(h, v, stringify);
            && (b.None? <==> exists p, end :: Trail(h, v, p, end) && Fault(h, p, end, {}))
            && (b.Some? ==> DecodeValue(b.value, parse).Some? && Shows(h, v, DecodeValue(b.value, parse).value))
  {
    hide Encode, Decode, Shows, Trail, Fault;
    EncodeFailsIff(h, v);
    var b := Stored(h, v, stringify);
    if v.Obj? && h[v.ref].Data? {
      assert b.value[1..] == h[v.ref].data;
      DataShows(h, v);
    } else if b.Some? {
      RoundTrip(h, v, {});
      assert b.value[1..] == stringify(Encode(h, v, {}).value);
    }
  }

  lemma DataShows(h: Heap, v: Value)
    requires Closed(h) && InHeap(h, v) && v.Obj? && h[v.ref].Data?
    ensures Shows(h, v, TData(h[v.ref].data)) && Encode(h, v, {}).Some?
  {
  }
}
