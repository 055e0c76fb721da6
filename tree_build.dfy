/**
 * `toTree(source, option)` of `src/utils/index.ts`, on an arena. Each record
 * is shallow-copied; the copies live at their record's index, children
 * arrays are identified by their index in `arrays`, and the `templ`
 * dictionary maps a key either to a copy or to a placeholder object
 * `{ [childrenKey]: [] }` that collects children seen before their parent.
 * A copy's children field is absent, explicitly `undefined`, or an array:
 * arrays are shared by reference, so the model keeps their identity.
 */
module TreeBuild {
  import opened Js

  datatype Options = Options(uniqueKey: string, parentKey: string, retainChildrenKey: bool)

  /** The children field of a copy. */
  datatype Kids = Absent | UndefKids | Arr(id: nat)

  /** The shallow copy `{ ..._v }` of a record, apart from its children field. */
  datatype Copy = Copy(fields: Rec, kids: Kids)

  /** A `templ` entry: the copy of a record, or a placeholder holding a children array. */
  datatype Slot = CopyAt(at: nat) | Holder(arr: nat)

  /** The objects `toTree` has built so far, and its `templ` and `result`. */
  datatype Arena = Arena(copies: seq<Copy>, arrays: seq<seq<nat>>, templ: map<string, Slot>, result: seq<nat>)

  /**
   * The code as written re-attaches early children only to a root; the
   * corrected variant lets every record take over the placeholder for its key.
   */
  datatype Variant = AsWritten | Corrected

  function UKey(rec: Rec, opt: Options): string {
    PropertyKey(Get(rec, opt.uniqueKey))
  }

  function PKey(rec: Rec, opt: Options): string {
    PropertyKey(Get(rec, opt.parentKey))
  }

  /** `if (v[parentKey])` fails: the record is a root. */
  predicate IsRoot(rec: Rec, opt: Options) {
    !Truthy(Get(rec, opt.parentKey))
  }

  /** Every index in the arena points inside it. */
  predicate WF(st: Arena) {
    Linked(st.copies, st.arrays, st.templ)
  }

  predicate Linked(copies: seq<Copy>, arrays: seq<seq<nat>>, templ: map<string, Slot>) {
    && (forall k :: k in templ ==>
          match templ[k]
          case CopyAt(j) => j < |copies|
          case Holder(a) => a < |arrays|)
    && (forall j :: 0 <= j < |copies| && copies[j].kids.Arr? ==> copies[j].kids.id < |arrays|)
  }

  /** `const v = { ..._v }; retainChildrenKey && (v[childrenKey] = v[childrenKey] || [])` */
  function AddCopy(st: Arena, rec: Rec, retain: bool): (r: Arena)
    requires WF(st)
    ensures WF(r)
  {
    if retain then st.(copies := st.copies + [Copy(rec, Arr(|st.arrays|))], arrays := st.arrays + [[]])
    else st.(copies := st.copies + [Copy(rec, Absent)])
  }

  /**
   * `templ[p]` gets a children array (`templ[p][childrenKey] || []`, or a new
   * placeholder); the result names the array the child is pushed into.
   */
  function Attach(st: Arena, p: string): (r: (Arena, nat))
    requires WF(st)
    ensures WF(r.0) && r.1 < |r.0.arrays|
  {
    if p in st.templ then
      match st.templ[p]
      case Holder(a) => (st, a)
      case CopyAt(j) =>
        if st.copies[j].kids.Arr? then (st, st.copies[j].kids.id)
        else
          var a := |st.arrays|;
          (st.(copies := st.copies[j := st.copies[j].(kids := Arr(a))], arrays := st.arrays + [[]]), a)
    else
      var a := |st.arrays|;
      (st.(arrays := st.arrays + [[]], templ := st.templ[p := Holder(a)]), a)
  }

  /** What `v[childrenKey] = templ[u][childrenKey]` assigns: reading an absent field gives `undefined`. */
  function KidsOf(s: Slot, copies: seq<Copy>): Kids
    requires s.CopyAt? ==> s.at < |copies|
  {
    match s
    case Holder(a) => Arr(a)
    case CopyAt(j) => if copies[j].kids.Absent? then UndefKids else copies[j].kids
  }

  /** `templ[v[uniqueKey]] && (v[childrenKey] = templ[v[uniqueKey]][childrenKey])` for copy `i`. */
  function Adopt(st: Arena, i: nat, u: string): (r: Arena)
    requires WF(st) && i < |st.copies|
    ensures WF(r)
  {
    if u in st.templ then
      st.(copies := st.copies[i := st.copies[i].(kids := KidsOf(st.templ[u], st.copies))])
    else st
  }

  /** One pass of the `source.every` callback, for the record at index `|st.copies|`. */
  function Step(st: Arena, rec: Rec, opt: Options, variant: Variant): (r: Arena)
    requires WF(st)
    ensures WF(r) && |r.copies| == |st.copies| + 1
  {
    var i := |st.copies|;
    var u := UKey(rec, opt);
    var s0 := AddCopy(st, rec, opt.retainChildrenKey);
    var s1 :=
      if IsRoot(rec, opt) then Adopt(s0.(result := s0.result + [i]), i, u)
      else
        var sa := Attach(s0, PKey(rec, opt));
        var pushed := sa.0.(arrays := sa.0.arrays[sa.1 := sa.0.arrays[sa.1] + [i]]);
        if variant == Corrected then Adopt(pushed, i, u) else pushed;
    s1.(templ := s1.templ[u := CopyAt(i)])
  }

  /** The arena after all of `source` has been processed. */
  function Build(source: seq<Rec>, opt: Options, variant: Variant): (r: Arena)
    ensures WF(r) && |r.copies| == |source|
  {
    if source == [] then Arena([], [], map[], [])
    else Step(Build(source[..|source| - 1], opt, variant), source[|source| - 1], opt, variant)
  }

  predicate Increasing(xs: seq<nat>) {
    forall a, b :: 0 <= a < b < |xs| ==> xs[a] < xs[b]
  }

  /** `st2` extends `st`: children arrays only grow at the back, and a children array once assigned stays. */
  predicate Grows(st: Arena, st2: Arena) {
    && |st.copies| <= |st2.copies| && |st.arrays| <= |st2.arrays|
    && (forall j :: 0 <= j < |st.copies| && st.copies[j].kids.Arr? ==> st2.copies[j].kids == st.copies[j].kids)
    && (forall a :: 0 <= a < |st.arrays| ==> st.arrays[a] <= st2.arrays[a])
  }

  lemma GrowsTrans(s1: Arena, s2: Arena, s3: Arena)
    requires Grows(s1, s2) && Grows(s2, s3)
    ensures Grows(s1, s3)
  {
    forall a | 0 <= a < |s1.arrays|
      ensures s1.arrays[a] <= s3.arrays[a]
    {
      assert s1.arrays[a] <= s2.arrays[a] <= s3.arrays[a];
    }
  }

  // ---------------------------------------------------------------------------
  // One step
  // ---------------------------------------------------------------------------

  /** A step appends the new copy to the result exactly when its record is a root. */
  lemma StepResult(st: Arena, rec: Rec, opt: Options, variant: Variant)
    requires WF(st)
    ensures Step(st, rec, opt, variant).result == st.result + (if IsRoot(rec, opt) then [|st.copies|] else [])
  {
    var i, u := |st.copies|, UKey(rec, opt);
    var s0 := AddCopy(st, rec, opt.retainChildrenKey);
    assert s0.result == st.result;
    if IsRoot(rec, opt) {
      AdoptFrame(s0.(result := s0.result + [i]), i, u);
    } else {
      var sa := Attach(s0, PKey(rec, opt));
      AttachFrame(s0, PKey(rec, opt));
      var pushed := sa.0.(arrays := sa.0.arrays[sa.1 := sa.0.arrays[sa.1] + [i]]);
      AdoptFrame(pushed, i, u);
    }
  }

  /** A step stores the record's fields in the new copy and leaves the fields of older copies alone. */
  lemma StepFields(st: Arena, rec: Rec, opt: Options, variant: Variant)
    requires WF(st)
    ensures var r := Step(st, rec, opt, variant);
            && r.copies[|st.copies|].fields == rec
            && (forall j :: 0 <= j < |st.copies| ==> r.copies[j].fields == st.copies[j].fields)
  {
    var i, u := |st.copies|, UKey(rec, opt);
    var s0 := AddCopy(st, rec, opt.retainChildrenKey);
    assert s0.copies[i].fields == rec;
    assert forall j :: 0 <= j < i ==> s0.copies[j] == st.copies[j];
    if IsRoot(rec, opt) {
      AdoptFrame(s0.(result := s0.result + [i]), i, u);
    } else {
      var sa := Attach(s0, PKey(rec, opt));
      AttachFrame(s0, PKey(rec, opt));
      var pushed := sa.0.(arrays := sa.0.arrays[sa.1 := sa.0.arrays[sa.1] + [i]]);
      AdoptFrame(pushed, i, u);
    }
  }

  /** `Attach` leaves the result and the fields of every copy alone. */
  lemma AttachFrame(st: Arena, p: string)
    requires WF(st)
    ensures var r := Attach(st, p).0;
            && r.result == st.result && |r.copies| == |st.copies|
            && (forall j :: 0 <= j < |st.copies| ==> r.copies[j].fields == st.copies[j].fields)
  {
  }

  lemma AttachGrows(st: Arena, p: string)
    requires WF(st)
    ensures var r := Attach(st, p).0;
            Grows(st, r) && |r.copies| == |st.copies| && r.result == st.result
  {
  }

  lemma PushGrows(st: Arena, a: nat, i: nat)
    requires a < |st.arrays|
    ensures Grows(st, st.(arrays := st.arrays[a := st.arrays[a] + [i]]))
  {
  }

  /** `Adopt` changes nothing but the children field of copy `i`. */
  lemma AdoptFrame(st: Arena, i: nat, u: string)
    requires WF(st) && i < |st.copies|
    ensures var r := Adopt(st, i, u);
            && r.arrays == st.arrays && r.templ == st.templ && r.result == st.result
            && |r.copies| == |st.copies| && r.copies[i].fields == st.copies[i].fields
            && (forall j :: 0 <= j < |st.copies| && j != i ==> r.copies[j] == st.copies[j])
  {
  }

  lemma StepGrows(st: Arena, rec: Rec, opt: Options, variant: Variant)
    requires WF(st)
    ensures Grows(st, Step(st, rec, opt, variant))
  {
    var i, u := |st.copies|, UKey(rec, opt);
    var s0 := AddCopy(st, rec, opt.retainChildrenKey);
    assert Grows(st, s0);
    var s1: Arena;
    if IsRoot(rec, opt) {
      s1 := Adopt(s0.(result := s0.result + [i]), i, u);
      AdoptFrame(s0.(result := s0.result + [i]), i, u);
    } else {
      var sa := Attach(s0, PKey(rec, opt));
      AttachGrows(s0, PKey(rec, opt));
      var pushed := sa.0.(arrays := sa.0.arrays[sa.1 := sa.0.arrays[sa.1] + [i]]);
      PushGrows(sa.0, sa.1, i);
      GrowsTrans(st, s0, sa.0);
      GrowsTrans(st, sa.0, pushed);
      s1 := if variant == Corrected then Adopt(pushed, i, u) else pushed;
      AdoptFrame(pushed, i, u);
    }
    assert Step(st, rec, opt, variant) == s1.(templ := s1.templ[u := CopyAt(i)]);
  }

  /** `templ[v[uniqueKey]] = v`; other keys keep their entry, and a new one is a placeholder. */
  lemma StepTempl(st: Arena, rec: Rec, opt: Options, variant: Variant)
    requires WF(st)
    ensures var r := Step(st, rec, opt, variant);
            && UKey(rec, opt) in r.templ && r.templ[UKey(rec, opt)] == CopyAt(|st.copies|)
            && (forall k :: k in st.templ && k != UKey(rec, opt) ==> k in r.templ && r.templ[k] == st.templ[k])
            && (forall k :: k in r.templ && k !in st.templ && k != UKey(rec, opt) ==> r.templ[k].Holder?)
  {
  }

  /** A children array is pushed into only by the newest record, at the back. */
  predicate ArraysOk(st: Arena, src: seq<Rec>, opt: Options) {
    Listed(st.arrays, src, opt)
  }

  predicate Listed(arrays: seq<seq<nat>>, src: seq<Rec>, opt: Options) {
    forall a :: 0 <= a < |arrays| ==>
      && Increasing(arrays[a])
      && (forall x :: x in arrays[a] ==> x < |src| && !IsRoot(src[x], opt))
  }

  lemma StepArraysOk(st: Arena, src: seq<Rec>, opt: Options, variant: Variant)
    requires WF(st) && |src| == |st.copies| + 1 && ArraysOk(st, src[..|src| - 1], opt)
    ensures ArraysOk(Step(st, src[|src| - 1], opt, variant), src, opt)
  {
    var i, rec := |st.copies|, src[|src| - 1];
    var u := UKey(rec, opt);
    var s0 := AddCopy(st, rec, opt.retainChildrenKey);
    assert ArraysOk(s0, src[..|src| - 1], opt);
    var s1: Arena;
    if IsRoot(rec, opt) {
      s1 := Adopt(s0.(result := s0.result + [i]), i, u);
      AdoptFrame(s0.(result := s0.result + [i]), i, u);
      ArraysOkExtend(s1, src, opt);
    } else {
      var sa := Attach(s0, PKey(rec, opt));
      AttachArraysOk(s0, PKey(rec, opt), src[..|src| - 1], opt);
      var pushed := sa.0.(arrays := sa.0.arrays[sa.1 := sa.0.arrays[sa.1] + [i]]);
      PushArraysOk(sa.0, sa.1, src, opt);
      s1 := if variant == Corrected then Adopt(pushed, i, u) else pushed;
      AdoptFrame(pushed, i, u);
    }
    assert Step(st, rec, opt, variant) == s1.(templ := s1.templ[u := CopyAt(i)]);
  }

  /** `Attach` adds at most one empty array. */
  lemma AttachArraysOk(st: Arena, p: string, src: seq<Rec>, opt: Options)
    requires WF(st) && ArraysOk(st, src, opt)
    ensures ArraysOk(Attach(st, p).0, src, opt)
  {
  }

  /** Arrays that satisfy `ArraysOk` for a prefix satisfy it for the whole input. */
  lemma ArraysOkExtend(s: Arena, src: seq<Rec>, opt: Options)
    requires src != [] && ArraysOk(s, src[..|src| - 1], opt)
    ensures ArraysOk(s, src, opt)
  {
    assert forall x :: 0 <= x < |src| - 1 ==> src[..|src| - 1][x] == src[x];
  }

  /** Pushing the newest record, which has a parent, keeps every array increasing and free of roots. */
  lemma PushArraysOk(s: Arena, a: nat, src: seq<Rec>, opt: Options)
    requires src != [] && a < |s.arrays| && !IsRoot(src[|src| - 1], opt)
    requires ArraysOk(s, src[..|src| - 1], opt)
    ensures ArraysOk(s.(arrays := s.arrays[a := s.arrays[a] + [|src| - 1]]), src, opt)
  {
    ArraysOkExtend(s, src, opt);
    var before := s.arrays[a];
    assert forall k :: 0 <= k < |before| ==> before[k] in before;
  }

  /** With `retainChildrenKey`, every copy holds a children array. */
  predicate AllArrays(st: Arena) {
    forall j :: 0 <= j < |st.copies| ==> st.copies[j].kids.Arr?
  }

  lemma StepAllArrays(st: Arena, rec: Rec, opt: Options, variant: Variant)
    requires WF(st) && opt.retainChildrenKey && AllArrays(st)
    ensures AllArrays(Step(st, rec, opt, variant))
  {
    var i := |st.copies|;
    var s0 := AddCopy(st, rec, opt.retainChildrenKey);
    assert AllArrays(s0);
    if !IsRoot(rec, opt) {
      var sa := Attach(s0, PKey(rec, opt));
      assert AllArrays(sa.0);
    }
  }

  /** A child whose `templ` entry is a copy is pushed into that copy's children array. */
  lemma StepAttachesToCopy(st: Arena, rec: Rec, opt: Options, variant: Variant, j: nat)
    requires WF(st) && !IsRoot(rec, opt)
    requires PKey(rec, opt) in st.templ && st.templ[PKey(rec, opt)] == CopyAt(j)
    ensures var r := Step(st, rec, opt, variant);
            j < |st.copies| && r.copies[j].kids.Arr? && |st.copies| in r.arrays[r.copies[j].kids.id]
  {
    var i := |st.copies|;
    var s0 := AddCopy(st, rec, opt.retainChildrenKey);
    var sa := Attach(s0, PKey(rec, opt));
    assert sa.0.copies[j].kids == Arr(sa.1);
  }

  /** A child whose parent key has no copy in `templ` is pushed into the placeholder's array. */
  lemma StepAttachesToHolder(st: Arena, rec: Rec, opt: Options, variant: Variant)
    requires WF(st) && !IsRoot(rec, opt)
    requires PKey(rec, opt) in st.templ ==> st.templ[PKey(rec, opt)].Holder?
    ensures var r := Step(st, rec, opt, variant);
            var a := Attach(AddCopy(st, rec, opt.retainChildrenKey), PKey(rec, opt)).1;
            && a < |r.arrays| && |st.copies| in r.arrays[a]
            && (PKey(rec, opt) != UKey(rec, opt) ==> r.templ[PKey(rec, opt)] == Holder(a))
            && (variant == Corrected && PKey(rec, opt) == UKey(rec, opt) ==> r.copies[|st.copies|].kids == Arr(a))
  {
  }

  /** In the corrected variant, or for a root, a record takes over the placeholder for its key. */
  lemma StepAdoptsHolder(st: Arena, rec: Rec, opt: Options, variant: Variant)
    requires WF(st) && (variant == Corrected || IsRoot(rec, opt))
    requires UKey(rec, opt) in st.templ && st.templ[UKey(rec, opt)].Holder?
    ensures Step(st, rec, opt, variant).copies[|st.copies|].kids == Arr(st.templ[UKey(rec, opt)].arr)
  {
    var s0 := AddCopy(st, rec, opt.retainChildrenKey);
    if !IsRoot(rec, opt) {
      var sa := Attach(s0, PKey(rec, opt));
      assert sa.0.templ[UKey(rec, opt)] == st.templ[UKey(rec, opt)];
    }
  }

  // ---------------------------------------------------------------------------
  // The whole pass
  // ---------------------------------------------------------------------------

  lemma BuildPrefix(src: seq<Rec>, n: nat, opt: Options, variant: Variant)
    requires n < |src|
    ensures Build(src[..n + 1], opt, variant) == Step(Build(src[..n], opt, variant), src[n], opt, variant)
  {
    assert src[..n + 1][..n] == src[..n];
  }

  /**
   * The result holds exactly the copies of the records whose parent key is
   * falsy, in input order.
   */
  lemma {:induction false} ToTreeRoots(src: seq<Rec>, opt: Options, variant: Variant)
    ensures var r := Build(src, opt, variant).result;
            && (forall x :: x in r <==> 0 <= x < |src| && IsRoot(src[x], opt))
            && Increasing(r)
  {
    if src != [] {
      var n := |src| - 1;
      var st := Build(src[..n], opt, variant);
      ToTreeRoots(src[..n], opt, variant);
      StepResult(st, src[n], opt, variant);
      RootsStep(src, opt, st.result);
    }
  }

  /** One more record: its index joins the roots, at the back, exactly when it is a root. */
  lemma RootsStep(src: seq<Rec>, opt: Options, before: seq<nat>)
    requires src != []
    requires forall x :: x in before <==> 0 <= x < |src| - 1 && IsRoot(src[..|src| - 1][x], opt)
    requires Increasing(before)
    ensures var after := before + (if IsRoot(src[|src| - 1], opt) then [|src| - 1] else []);
            && (forall x :: x in after <==> 0 <= x < |src| && IsRoot(src[x], opt))
            && Increasing(after)
  {
    assert forall x :: 0 <= x < |src| - 1 ==> src[..|src| - 1][x] == src[x];
    assert forall k :: 0 <= k < |before| ==> before[k] in before;
  }

  /** Each copy carries the fields of its record: the input records are copied, not changed. */
  lemma {:induction false} ToTreeCopiesFields(src: seq<Rec>, opt: Options, variant: Variant)
    ensures var r := Build(src, opt, variant);
            forall i :: 0 <= i < |src| ==> r.copies[i].fields == src[i]
  {
    if src != [] {
      var n := |src| - 1;
      var st := Build(src[..n], opt, variant);
      ToTreeCopiesFields(src[..n], opt, variant);
      StepFields(st, src[n], opt, variant);
      FieldsStep(src, st.copies, Build(src, opt, variant).copies);
    }
  }

  lemma FieldsStep(src: seq<Rec>, before: seq<Copy>, after: seq<Copy>)
    requires src != [] && |before| == |src| - 1 && |after| == |src|
    requires forall i :: 0 <= i < |before| ==> before[i].fields == src[..|src| - 1][i]
    requires after[|before|].fields == src[|src| - 1]
    requires forall j :: 0 <= j < |before| ==> after[j].fields == before[j].fields
    ensures forall i :: 0 <= i < |src| ==> after[i].fields == src[i]
  {
    assert forall i :: 0 <= i < |before| ==> src[..|src| - 1][i] == src[i];
  }

  /**
   * Every children array lists records with a truthy parent key, each at most
   * once, in input order.
   */
  lemma {:induction false} ToTreeArraysInOrder(src: seq<Rec>, opt: Options, variant: Variant)
    ensures ArraysOk(Build(src, opt, variant), src, opt)
  {
    if src != [] {
      var n := |src| - 1;
      ToTreeArraysInOrder(src[..n], opt, variant);
      assert src[..|src| - 1] == src[..n];
      StepArraysOk(Build(src[..n], opt, variant), src, opt, variant);
    }
  }

  /** With `retainChildrenKey`, every produced record has a children array. */
  lemma {:induction false} ToTreeRetainsChildren(src: seq<Rec>, opt: Options, variant: Variant)
    requires opt.retainChildrenKey
    ensures AllArrays(Build(src, opt, variant))
  {
    if src != [] {
      var n := |src| - 1;
      ToTreeRetainsChildren(src[..n], opt, variant);
      StepAllArrays(Build(src[..n], opt, variant), src[n], opt, variant);
    }
  }

  lemma {:induction false} BuildGrows(src: seq<Rec>, n: nat, opt: Options, variant: Variant)
    requires n <= |src|
    ensures Grows(Build(src[..n], opt, variant), Build(src, opt, variant))
    decreases |src|
  {
    if n == |src| {
      assert src[..n] == src;
    } else {
      var m := |src| - 1;
      assert src[..m][..n] == src[..n];
      BuildGrows(src[..m], n, opt, variant);
      StepGrows(Build(src[..m], opt, variant), src[m], opt, variant);
      GrowsTrans(Build(src[..n], opt, variant), Build(src[..m], opt, variant), Build(src, opt, variant));
    }
  }

  /** `templ` maps the key of every record seen to the copy of the last record with that key. */
  predicate Tracks(st: Arena, src: seq<Rec>, opt: Options) {
    && (forall k :: k in st.templ && st.templ[k].CopyAt? ==>
          && st.templ[k].at < |src| && UKey(src[st.templ[k].at], opt) == k
          && (forall m :: st.templ[k].at < m < |src| ==> UKey(src[m], opt) != k))
    && (forall j :: 0 <= j < |src| ==> UKey(src[j], opt) in st.templ && st.templ[UKey(src[j], opt)].CopyAt?)
  }

  lemma {:induction false} BuildTracks(src: seq<Rec>, opt: Options, variant: Variant)
    ensures Tracks(Build(src, opt, variant), src, opt)
  {
    if src != [] {
      var n := |src| - 1;
      var st := Build(src[..n], opt, variant);
      BuildTracks(src[..n], opt, variant);
      StepTempl(st, src[n], opt, variant);
      TracksStep(src, opt, st, Build(src, opt, variant));
    }
  }

  /** `templ` after one more record, from what `StepTempl` says about the step. */
  lemma TracksStep(src: seq<Rec>, opt: Options, st: Arena, r: Arena)
    requires src != [] && Tracks(st, src[..|src| - 1], opt)
    requires var u, n := UKey(src[|src| - 1], opt), |src| - 1;
             && u in r.templ && r.templ[u] == CopyAt(n)
             && (forall k :: k in st.templ && k != u ==> k in r.templ && r.templ[k] == st.templ[k])
             && (forall k :: k in r.templ && k !in st.templ && k != u ==> r.templ[k].Holder?)
    ensures Tracks(r, src, opt)
  {
    var n := |src| - 1;
    var u := UKey(src[n], opt);
    assert forall m :: 0 <= m < n ==> src[..n][m] == src[m];
    forall k | k in r.templ && r.templ[k].CopyAt?
      ensures r.templ[k].at < |src| && UKey(src[r.templ[k].at], opt) == k
      ensures forall m :: r.templ[k].at < m < |src| ==> UKey(src[m], opt) != k
    {
      if k != u {
        assert k in st.templ && r.templ[k] == st.templ[k];
      }
    }
    forall j | 0 <= j < |src|
      ensures UKey(src[j], opt) in r.templ && r.templ[UKey(src[j], opt)].CopyAt?
    {
      if j < n {
        assert UKey(src[..n][j], opt) in st.templ;
      }
    }
  }

  /** The last earlier record with a given key is the one `templ` points to. */
  lemma TemplPointsToLast(src: seq<Rec>, opt: Options, variant: Variant, j: nat, k: string)
    requires j < |src| && UKey(src[j], opt) == k
    requires forall m :: j < m < |src| ==> UKey(src[m], opt) != k
    ensures var t := Build(src, opt, variant).templ; k in t && t[k] == CopyAt(j)
  {
    BuildTracks(src, opt, variant);
  }

  /**
   * A record whose parent key is the key of an earlier record ends up in the
   * children of the last such record (as written, and corrected alike).
   */
  lemma ChildUnderEarlierParent(src: seq<Rec>, opt: Options, variant: Variant, i: nat, j: nat)
    requires i < |src| && !IsRoot(src[i], opt) && j < i && UKey(src[j], opt) == PKey(src[i], opt)
    requires forall m :: j < m < i ==> UKey(src[m], opt) != PKey(src[i], opt)
    ensures var r := Build(src, opt, variant);
            r.copies[j].kids.Arr? && i in r.arrays[r.copies[j].kids.id]
  {
    var st := Build(src[..i], opt, variant);
    forall m | j < m < i
      ensures UKey(src[..i][m], opt) != PKey(src[i], opt)
    {
      assert src[..i][m] == src[m];
    }
    assert src[..i][j] == src[j];
    TemplPointsToLast(src[..i], opt, variant, j, PKey(src[i], opt));
    BuildPrefix(src, i, opt, variant);
    StepAttachesToCopy(st, src[i], opt, variant, j);
    BuildGrows(src, i + 1, opt, variant);
  }

  /** A placeholder stays in `templ` until a record with its key arrives. */
  lemma {:induction false} HolderPersists(src: seq<Rec>, opt: Options, variant: Variant, n: nat, m: nat, k: string, a: nat)
    requires n <= m <= |src|
    requires var t := Build(src[..n], opt, variant).templ; k in t && t[k] == Holder(a)
    requires forall x :: n <= x < m ==> UKey(src[x], opt) != k
    ensures var t := Build(src[..m], opt, variant).templ; k in t && t[k] == Holder(a)
    decreases m - n
  {
    if m > n {
      HolderPersists(src, opt, variant, n, m - 1, k, a);
      BuildPrefix(src, m - 1, opt, variant);
      StepTempl(Build(src[..m - 1], opt, variant), src[m - 1], opt, variant);
    }
  }

  /** No two records share a unique key. */
  predicate UniqueKeys(src: seq<Rec>, opt: Options) {
    forall a, b :: 0 <= a < b < |src| ==> UKey(src[a], opt) != UKey(src[b], opt)
  }

  /** Before the parent's own record, the parent key has at most a placeholder in `templ`. */
  lemma NoCopyBeforeParent(src: seq<Rec>, opt: Options, variant: Variant, i: nat, j: nat)
    requires UniqueKeys(src, opt) && i <= j < |src|
    ensures var t := Build(src[..i], opt, variant).templ;
            UKey(src[j], opt) in t ==> t[UKey(src[j], opt)].Holder?
  {
    BuildTracks(src[..i], opt, variant);
    forall m | 0 <= m < i
      ensures src[..i][m] == src[m]
    {
    }
  }

  /** A child listed before its parent is collected in the placeholder for the parent key. */
  lemma ChildInPlaceholder(src: seq<Rec>, opt: Options, variant: Variant, i: nat, j: nat) returns (a: nat)
    requires UniqueKeys(src, opt)
    requires i <= j < |src| && !IsRoot(src[i], opt) && UKey(src[j], opt) == PKey(src[i], opt)
    ensures var r := Build(src[..i + 1], opt, variant);
            && a < |r.arrays| && i in r.arrays[a]
            && (j > i ==> PKey(src[i], opt) in r.templ && r.templ[PKey(src[i], opt)] == Holder(a))
            && (j == i && variant == Corrected ==> r.copies[i].kids == Arr(a))
  {
    var st := Build(src[..i], opt, variant);
    NoCopyBeforeParent(src, opt, variant, i, j);
    StepAttachesToHolder(st, src[i], opt, variant);
    a := Attach(AddCopy(st, src[i], opt.retainChildrenKey), PKey(src[i], opt)).1;
    BuildPrefix(src, i, opt, variant);
    if j > i {
      assert UKey(src[i], opt) != UKey(src[j], opt);
    }
  }

  /** The placeholder's array becomes the children array of the parent's copy. */
  lemma ParentTakesPlaceholder(src: seq<Rec>, opt: Options, variant: Variant, i: nat, j: nat, a: nat)
    requires UniqueKeys(src, opt)
    requires i < j < |src| && (IsRoot(src[j], opt) || variant == Corrected)
    requires var t := Build(src[..i + 1], opt, variant).templ; UKey(src[j], opt) in t && t[UKey(src[j], opt)] == Holder(a)
    ensures Build(src[..j + 1], opt, variant).copies[j].kids == Arr(a)
  {
    var p := UKey(src[j], opt);
    forall x | i + 1 <= x < j
      ensures UKey(src[x], opt) != p
    {
    }
    HolderPersists(src, opt, variant, i + 1, j, p, a);
    BuildPrefix(src, j, opt, variant);
    StepAdoptsHolder(Build(src[..j], opt, variant), src[j], opt, variant);
  }

  lemma GrowsKeepsMember(s1: Arena, s2: Arena, i: nat, a: nat)
    requires Grows(s1, s2) && a < |s1.arrays| && i in s1.arrays[a]
    ensures a < |s2.arrays| && i in s2.arrays[a]
  {
    assert s1.arrays[a] <= s2.arrays[a];
    assert s2.arrays[a][..|s1.arrays[a]|] == s1.arrays[a];
  }

  /**
   * With unique keys, a child ends up in its parent's children array when the
   * parent came first, or is a root, or always in the corrected variant.
   */
  lemma ChildUnderParent(src: seq<Rec>, opt: Options, variant: Variant, i: nat, j: nat)
    requires UniqueKeys(src, opt)
    requires i < |src| && j < |src| && !IsRoot(src[i], opt) && UKey(src[j], opt) == PKey(src[i], opt)
    requires j < i || IsRoot(src[j], opt) || variant == Corrected
    ensures var r := Build(src, opt, variant);
            r.copies[j].kids.Arr? && i in r.arrays[r.copies[j].kids.id]
  {
    if j < i {
      ChildUnderEarlierParent(src, opt, variant, i, j);
    } else {
      ChildUnderLaterParent(src, opt, variant, i, j);
    }
  }

  lemma ChildUnderLaterParent(src: seq<Rec>, opt: Options, variant: Variant, i: nat, j: nat)
    requires UniqueKeys(src, opt)
    requires i <= j < |src| && !IsRoot(src[i], opt) && UKey(src[j], opt) == PKey(src[i], opt)
    requires IsRoot(src[j], opt) || variant == Corrected
    ensures var r := Build(src, opt, variant);
            r.copies[j].kids.Arr? && i in r.arrays[r.copies[j].kids.id]
  {
    var a := ChildInPlaceholder(src, opt, variant, i, j);
    var r := Build(src, opt, variant);
    assert i in r.arrays[a] by {
      BuildGrows(src, i + 1, opt, variant);
      GrowsKeepsMember(Build(src[..i + 1], opt, variant), r, i, a);
    }
    if j > i {
      ParentTakesPlaceholder(src, opt, variant, i, j, a);
    } else {
      assert variant == Corrected;
    }
    KidsStay(src, opt, variant, j, a);
  }

  /** A children array assigned to a copy stays its children array to the end. */
  lemma KidsStay(src: seq<Rec>, opt: Options, variant: Variant, j: nat, a: nat)
    requires j < |src| && Build(src[..j + 1], opt, variant).copies[j].kids == Arr(a)
    ensures Build(src, opt, variant).copies[j].kids == Arr(a)
  {
    BuildGrows(src, j + 1, opt, variant);
    GrowsKeepsKids(Build(src[..j + 1], opt, variant), Build(src, opt, variant), j);
  }

  lemma GrowsKeepsKids(s1: Arena, s2: Arena, j: nat)
    requires Grows(s1, s2) && j < |s1.copies| && s1.copies[j].kids.Arr?
    ensures j < |s2.copies| && s2.copies[j].kids == s1.copies[j].kids
  {
  }

  // ---------------------------------------------------------------------------
  // Which parent each children array belongs to
  // ---------------------------------------------------------------------------

  /**
   * `own[a]` is the key children array `a` was made for: every record pushed
   * into it has that parent key, every copy holding it has that unique key,
   * and a placeholder holding it sits under that key. The first `done`
   * records have been pushed, each into one array.
   */
  predicate Owners(st: Arena, src: seq<Rec>, opt: Options, own: seq<string>, done: nat) {
    && |own| == |st.arrays| && done <= |st.copies| <= |src|
    && MembersOwned(st.arrays, done, src, opt, own)
    && CopiesOwned(st.copies, src, opt, own)
    && SlotsOwned(st.templ, |st.copies|, src, opt, own)
  }

  predicate MembersOwned(arrays: seq<seq<nat>>, done: nat, src: seq<Rec>, opt: Options, own: seq<string>)
    requires |own| == |arrays| && done <= |src|
  {
    && (forall a :: 0 <= a < |arrays| ==> forall x :: x in arrays[a] ==> x < done && PKey(src[x], opt) == own[a])
    && (forall a, b, x :: 0 <= a < |arrays| && 0 <= b < |arrays| && x in arrays[a] && x in arrays[b] ==> a == b)
  }

  predicate CopiesOwned(copies: seq<Copy>, src: seq<Rec>, opt: Options, own: seq<string>)
    requires |copies| <= |src|
  {
    forall j :: 0 <= j < |copies| && copies[j].kids.Arr? ==>
      copies[j].kids.id < |own| && UKey(src[j], opt) == own[copies[j].kids.id]
  }

  predicate SlotsOwned(templ: map<string, Slot>, n: nat, src: seq<Rec>, opt: Options, own: seq<string>)
    requires n <= |src|
  {
    forall k :: k in templ ==>
      match templ[k]
      case CopyAt(j) => j < n && UKey(src[j], opt) == k
      case Holder(a) => a < |own| && own[a] == k
  }

  /**
   * Appending empty arrays and copies keeps the ownership of everything
   * already there, when the new arrays and the new copies agree with `own2`.
   */
  lemma OwnersGrow(st: Arena, r: Arena, src: seq<Rec>, opt: Options, own: seq<string>, own2: seq<string>, done: nat)
    requires Owners(st, src, opt, own, done)
    requires |own2| == |r.arrays| && |st.arrays| <= |r.arrays| && own2[..|own|] == own
    requires forall a :: 0 <= a < |r.arrays| ==> r.arrays[a] == if a < |st.arrays| then st.arrays[a] else []
    requires |st.copies| <= |r.copies| <= |src| && r.copies[..|st.copies|] == st.copies
    requires forall j :: |st.copies| <= j < |r.copies| && r.copies[j].kids.Arr? ==>
               r.copies[j].kids.id < |own2| && UKey(src[j], opt) == own2[r.copies[j].kids.id]
    requires r.templ == st.templ
    ensures Owners(r, src, opt, own2, done)
  {
    forall a, x | 0 <= a < |r.arrays| && x in r.arrays[a]
      ensures a < |st.arrays| && x in st.arrays[a]
      ensures x < done && PKey(src[x], opt) == own2[a]
    {
      assert r.arrays[a] == st.arrays[a];
      assert own2[..|own|][a] == own2[a];
    }
    forall a, b, x | 0 <= a < |r.arrays| && 0 <= b < |r.arrays| && x in r.arrays[a] && x in r.arrays[b]
      ensures a == b
    {
      assert x in st.arrays[a] && x in st.arrays[b];
    }
    forall j | 0 <= j < |st.copies|
      ensures r.copies[j] == st.copies[j]
    {
      assert r.copies[..|st.copies|][j] == r.copies[j];
    }
    forall a | 0 <= a < |own|
      ensures own2[a] == own[a]
    {
      assert own2[..|own|][a] == own2[a];
    }
    assert MembersOwned(r.arrays, done, src, opt, own2);
    assert CopiesOwned(r.copies, src, opt, own2);
    assert SlotsOwned(r.templ, |r.copies|, src, opt, own2);
  }

  /** The new copy owns the array it may bring along. */
  lemma OwnersAddCopy(st: Arena, src: seq<Rec>, opt: Options, own: seq<string>, done: nat) returns (own2: seq<string>)
    requires WF(st) && |st.copies| < |src| && Owners(st, src, opt, own, done)
    ensures Owners(AddCopy(st, src[|st.copies|], opt.retainChildrenKey), src, opt, own2, done)
  {
    var i := |st.copies|;
    var r := AddCopy(st, src[i], opt.retainChildrenKey);
    own2 := if opt.retainChildrenKey then own + [UKey(src[i], opt)] else own;
    assert own2[..|own|] == own;
    assert r.copies[..i] == st.copies;
    OwnersGrow(st, r, src, opt, own, own2, done);
  }

  /** Copy `i` takes the children of the `templ` entry for its own key, which belong to that key. */
  lemma OwnersAdopt(st: Arena, i: nat, src: seq<Rec>, opt: Options, own: seq<string>, done: nat)
    requires WF(st) && i < |st.copies| && Owners(st, src, opt, own, done)
    ensures Owners(Adopt(st, i, UKey(src[i], opt)), src, opt, own, done)
  {
    var u := UKey(src[i], opt);
    if u in st.templ {
      match st.templ[u]
      case Holder(a) =>
      case CopyAt(j) =>
    }
  }

  /** The array a child is attached to belongs to the child's parent key. */
  lemma OwnersAttach(st: Arena, p: string, src: seq<Rec>, opt: Options, own: seq<string>, done: nat) returns (own2: seq<string>)
    requires WF(st) && Owners(st, src, opt, own, done)
    ensures var r := Attach(st, p);
            Owners(r.0, src, opt, own2, done) && r.1 < |own2| && own2[r.1] == p
  {
    var r := Attach(st, p);
    if p in st.templ && (st.templ[p].Holder? || st.copies[st.templ[p].at].kids.Arr?) {
      own2 := own;
    } else if p in st.templ {
      var j := st.templ[p].at;
      own2 := own + [p];
      assert own2[..|own|] == own;
      var grown := st.(arrays := st.arrays + [[]]);
      assert grown.copies[..|st.copies|] == st.copies;
      OwnersGrow(st, grown, src, opt, own, own2, done);
      assert r.0 == grown.(copies := st.copies[j := st.copies[j].(kids := Arr(|st.arrays|))]);
      forall k | 0 <= k < |r.0.copies| && r.0.copies[k].kids.Arr?
        ensures r.0.copies[k].kids.id < |own2| && UKey(src[k], opt) == own2[r.0.copies[k].kids.id]
      {
        if k != j {
          assert r.0.copies[k] == st.copies[k];
          assert own2[st.copies[k].kids.id] == own[st.copies[k].kids.id];
        }
      }
    } else {
      own2 := own + [p];
      assert own2[..|own|] == own;
      var grown := st.(arrays := st.arrays + [[]]);
      assert grown.copies[..|st.copies|] == st.copies;
      OwnersGrow(st, grown, src, opt, own, own2, done);
      assert r.0 == grown.(templ := st.templ[p := Holder(|st.arrays|)]);
    }
  }

  /** Pushing record `done`, whose parent key owns the array, keeps every record in one array. */
  lemma OwnersPush(st: Arena, a: nat, src: seq<Rec>, opt: Options, own: seq<string>, done: nat)
    requires Owners(st, src, opt, own, done) && a < |st.arrays| && done < |st.copies|
    requires PKey(src[done], opt) == own[a]
    ensures Owners(st.(arrays := st.arrays[a := st.arrays[a] + [done]]), src, opt, own, done + 1)
  {
    var arrays := st.arrays[a := st.arrays[a] + [done]];
    forall b, x | 0 <= b < |arrays| && x in arrays[b]
      ensures x < done + 1 && PKey(src[x], opt) == own[b]
      ensures x != done ==> x in st.arrays[b]
    {
      if b == a && x !in st.arrays[a] {
        assert x == done;
      }
    }
  }

  lemma OwnersTempl(st: Arena, i: nat, src: seq<Rec>, opt: Options, own: seq<string>, done: nat)
    requires Owners(st, src, opt, own, done) && i < |st.copies|
    ensures Owners(st.(templ := st.templ[UKey(src[i], opt) := CopyAt(i)]), src, opt, own, done)
  {
  }

  lemma StepOwnersRoot(st: Arena, src: seq<Rec>, opt: Options, own: seq<string>) returns (own2: seq<string>)
    requires WF(st) && |st.copies| < |src| && Owners(st, src, opt, own, |st.copies|)
    requires IsRoot(src[|st.copies|], opt)
    ensures var i := |st.copies|; var s0 := AddCopy(st, src[i], opt.retainChildrenKey);
      Owners(Adopt(s0.(result := s0.result + [i]), i, UKey(src[i], opt)), src, opt, own2, i + 1)
  {
    var i := |st.copies|;
    var s0 := AddCopy(st, src[i], opt.retainChildrenKey);
    own2 := OwnersAddCopy(st, src, opt, own, i);
    var sr := s0.(result := s0.result + [i]);
    assert Owners(sr, src, opt, own2, i + 1);
    OwnersAdopt(sr, i, src, opt, own2, i + 1);
  }

  lemma StepOwnersChild(st: Arena, src: seq<Rec>, opt: Options, variant: Variant, own: seq<string>) returns (own2: seq<string>)
    requires WF(st) && |st.copies| < |src| && Owners(st, src, opt, own, |st.copies|)
    requires !IsRoot(src[|st.copies|], opt)
    ensures var i := |st.copies|; var rec := src[i];
      var sa := Attach(AddCopy(st, rec, opt.retainChildrenKey), PKey(rec, opt));
      var pushed := sa.0.(arrays := sa.0.arrays[sa.1 := sa.0.arrays[sa.1] + [i]]);
      Owners(if variant == Corrected then Adopt(pushed, i, UKey(rec, opt)) else pushed, src, opt, own2, i + 1)
  {
    var i, rec := |st.copies|, src[|st.copies|];
    var s0 := AddCopy(st, rec, opt.retainChildrenKey);
    var own0 := OwnersAddCopy(st, src, opt, own, i);
    var sa := Attach(s0, PKey(rec, opt));
    own2 := OwnersAttach(s0, PKey(rec, opt), src, opt, own0, i);
    var pushed := sa.0.(arrays := sa.0.arrays[sa.1 := sa.0.arrays[sa.1] + [i]]);
    OwnersPush(sa.0, sa.1, src, opt, own2, i);
    if variant == Corrected {
      OwnersAdopt(pushed, i, src, opt, own2, i + 1);
    }
  }

  lemma StepOwners(st: Arena, src: seq<Rec>, opt: Options, variant: Variant, own: seq<string>) returns (own2: seq<string>)
    requires WF(st) && |st.copies| < |src| && Owners(st, src, opt, own, |st.copies|)
    ensures Owners(Step(st, src[|st.copies|], opt, variant), src, opt, own2, |st.copies| + 1)
  {
    var i, rec := |st.copies|, src[|st.copies|];
    var u := UKey(rec, opt);
    var s0 := AddCopy(st, rec, opt.retainChildrenKey);
    var s1: Arena;
    if IsRoot(rec, opt) {
      own2 := StepOwnersRoot(st, src, opt, own);
      s1 := Adopt(s0.(result := s0.result + [i]), i, u);
    } else {
      own2 := StepOwnersChild(st, src, opt, variant, own);
      var sa := Attach(s0, PKey(rec, opt));
      var pushed := sa.0.(arrays := sa.0.arrays[sa.1 := sa.0.arrays[sa.1] + [i]]);
      s1 := if variant == Corrected then Adopt(pushed, i, u) else pushed;
    }
    OwnersTempl(s1, i, src, opt, own2, i + 1);
  }

  lemma {:induction false} BuildOwners(src: seq<Rec>, opt: Options, variant: Variant, n: nat) returns (own: seq<string>)
    requires n <= |src|
    ensures Owners(Build(src[..n], opt, variant), src, opt, own, n)
  {
    if n == 0 {
      assert src[..0] == [];
      own := [];
    } else {
      var own0 := BuildOwners(src, opt, variant, n - 1);
      BuildPrefix(src, n - 1, opt, variant);
      own := StepOwners(Build(src[..n - 1], opt, variant), src, opt, variant, own0);
    }
  }

  /**
   * A children array holds only records with a parent, whose parent key is the
   * unique key of the copy holding the array: no record lands under a wrong
   * parent (as written, and corrected alike).
   */
  lemma ChildrenShareParentKey(src: seq<Rec>, opt: Options, variant: Variant, j: nat, x: nat)
    requires j < |src|
    requires var r := Build(src, opt, variant); r.copies[j].kids.Arr? && x in r.arrays[r.copies[j].kids.id]
    ensures x < |src| && !IsRoot(src[x], opt) && PKey(src[x], opt) == UKey(src[j], opt)
  {
    var own := BuildOwners(src, opt, variant, |src|);
    assert src[..|src|] == src;
    ToTreeArraysInOrder(src, opt, variant);
  }

  /** Every record sits in at most one children array. */
  lemma ChildInOneArray(src: seq<Rec>, opt: Options, variant: Variant, x: nat, a: nat, b: nat)
    requires var r := Build(src, opt, variant); a < |r.arrays| && b < |r.arrays| && x in r.arrays[a] && x in r.arrays[b]
    ensures a == b
  {
    var own := BuildOwners(src, opt, variant, |src|);
    assert src[..|src|] == src;
  }

  /** A copy is lost when it is not a root and no copy holds a children array containing it. */
  predicate Lost(r: Arena, x: nat) {
    && x !in r.result
    && forall c :: 0 <= c < |r.copies| && r.copies[c].kids.Arr? && r.copies[c].kids.id < |r.arrays| ==>
         x !in r.arrays[r.copies[c].kids.id]
  }

  /** Three records, each child listed before its parent; the top one is the root. */
  function EarlyChildren(): seq<Rec> {
    [map["id" := Num(3), "pid" := Num(2)], map["id" := Num(2), "pid" := Num(1)], map["id" := Num(1), "pid" := Num(0)]]
  }

  function EarlyOptions(): Options {
    Options("id", "pid", false)
  }

  lemma EarlyKeys()
    ensures var src, opt := EarlyChildren(), EarlyOptions();
            && UKey(src[0], opt) == "3" && UKey(src[1], opt) == "2" && UKey(src[2], opt) == "1"
            && PKey(src[0], opt) == "2" && PKey(src[1], opt) == "1"
            && !IsRoot(src[0], opt) && !IsRoot(src[1], opt) && IsRoot(src[2], opt)
  {
    assert Digits(1) == "1" && Digits(2) == "2" && Digits(3) == "3";
  }

  /** After the record with id 3: a placeholder for key 2 holds it. */
  lemma EarlyFirst(variant: Variant)
    ensures var s1 := Build(EarlyChildren()[..1], EarlyOptions(), variant);
            && s1.copies == [Copy(EarlyChildren()[0], Absent)] && s1.arrays == [[0]]
            && s1.templ == map["2" := Holder(0), "3" := CopyAt(0)] && s1.result == []
  {
    var src, opt := EarlyChildren(), EarlyOptions();
    EarlyKeys();
    BuildPrefix(src, 0, opt, variant);
    assert src[..0] == [];
    var e := Arena([], [], map[], []);
    assert Build(src[..0], opt, variant) == e;
    var s0 := AddCopy(e, src[0], false);
    var sa := Attach(s0, "2");
    assert sa.1 == 0 && sa.0.arrays == [[]];
    assert sa.0.arrays[0] + [0] == [0];
    assert sa.0.arrays[0 := [0]] == [[0]];
  }

  /** As written, after the record with id 2: it replaced the placeholder for key 2, and a placeholder for key 1 holds it. */
  lemma EarlySecond()
    ensures var s2 := Build(EarlyChildren()[..2], EarlyOptions(), AsWritten);
            && s2.copies == [Copy(EarlyChildren()[0], Absent), Copy(EarlyChildren()[1], Absent)]
            && s2.arrays == [[0], [1]] && "1" in s2.templ && s2.templ["1"] == Holder(1) && s2.result == []
  {
    var src, opt := EarlyChildren(), EarlyOptions();
    EarlyKeys();
    EarlyFirst(AsWritten);
    var s1 := Build(src[..1], opt, AsWritten);
    BuildPrefix(src, 1, opt, AsWritten);
    var sa := Attach(AddCopy(s1, src[1], false), "1");
    assert sa.1 == 1 && sa.0.arrays == [[0], []];
    assert sa.0.arrays[1] + [1] == [1];
    assert sa.0.arrays[1 := [1]] == [[0], [1]];
  }

  /** As written, the root with id 1 takes over the placeholder for key 1 only. */
  lemma EarlyThird()
    ensures var r := Build(EarlyChildren(), EarlyOptions(), AsWritten);
            && r.copies == [Copy(EarlyChildren()[0], Absent), Copy(EarlyChildren()[1], Absent), Copy(EarlyChildren()[2], Arr(1))]
            && r.arrays == [[0], [1]] && r.result == [2]
  {
    var src, opt := EarlyChildren(), EarlyOptions();
    EarlyKeys();
    EarlySecond();
    var s2 := Build(src[..2], opt, AsWritten);
    BuildPrefix(src, 2, opt, AsWritten);
    assert src[..3] == src;
    var s0 := AddCopy(s2, src[2], false);
    assert s0.copies == [Copy(src[0], Absent), Copy(src[1], Absent), Copy(src[2], Absent)];
    var ad := Adopt(s0.(result := s0.result + [2]), 2, "1");
    assert ad.copies == [Copy(src[0], Absent), Copy(src[1], Absent), Copy(src[2], Arr(1))];
  }

  /**
   * As written, the record with id 3 is lost: it waits in the placeholder
   * for key 2, which the non-root record with id 2 then replaces.
   */
  lemma ToTreeLosesEarlyChild()
    ensures var src, opt := EarlyChildren(), EarlyOptions();
            && UniqueKeys(src, opt) && !IsRoot(src[0], opt) && UKey(src[1], opt) == PKey(src[0], opt)
            && Lost(Build(src, opt, AsWritten), 0)
  {
    var src, opt := EarlyChildren(), EarlyOptions();
    EarlyKeys();
    assert UniqueKeys(src, opt);
    EarlyThird();
    EarlyLost(Build(src, opt, AsWritten), src);
  }

  /** In the arena `EarlyThird` describes, record 0 is in no array reachable from a copy, nor in the result. */
  lemma EarlyLost(r: Arena, src: seq<Rec>)
    requires |src| == 3
    requires r.copies == [Copy(src[0], Absent), Copy(src[1], Absent), Copy(src[2], Arr(1))]
    requires r.arrays == [[0], [1]] && r.result == [2]
    ensures Lost(r, 0)
  {
    forall c | 0 <= c < |r.copies| && r.copies[c].kids.Arr? && r.copies[c].kids.id < |r.arrays|
      ensures 0 !in r.arrays[r.copies[c].kids.id]
    {
      assert c == 2;
    }
  }

  /** The corrected variant keeps the same record under its parent. */
  lemma CorrectedKeepsEarlyChild()
    ensures var r := Build(EarlyChildren(), EarlyOptions(), Corrected);
            !Lost(r, 0) && !Lost(r, 1)
  {
    var src, opt := EarlyChildren(), EarlyOptions();
    EarlyKeys();
    assert UniqueKeys(src, opt);
    ChildUnderParent(src, opt, Corrected, 0, 1);
    ChildUnderParent(src, opt, Corrected, 1, 2);
  }

  // ---------------------------------------------------------------------------
  // The loop
  // ---------------------------------------------------------------------------

  /**
   * `templ[p][childrenKey] = templ[p][childrenKey] || []`, or a new
   * placeholder `templ[p] = { [childrenKey]: [] }`, on copies `0..n-1`;
   * `a` is the array the child is then pushed into.
   */
  method AttachParent(copies: array<Copy>, n: nat, arrays: seq<seq<nat>>, templ: map<string, Slot>, ghost result: seq<nat>, p: string)
    returns (arrays2: seq<seq<nat>>, templ2: map<string, Slot>, a: nat)
    requires n <= copies.Length && WF(Arena(copies[..n], arrays, templ, result))
    modifies copies
    ensures Attach(Arena(old(copies[..n]), arrays, templ, result), p) == (Arena(copies[..n], arrays2, templ2, result), a)
    ensures forall k :: n <= k < copies.Length ==> copies[k] == old(copies[k])
  {
    arrays2, templ2 := arrays, templ;
    if p in templ {
      match templ[p]
      case Holder(h) =>
        a := h;
      case CopyAt(j) =>
        if copies[j].kids.Arr? {
          a := copies[j].kids.id;
        } else {
          a := |arrays|;
          arrays2 := arrays + [[]];
          copies[j] := copies[j].(kids := Arr(a));
          assert copies[..n] == old(copies[..n])[j := old(copies[..n])[j].(kids := Arr(a))];
        }
    } else {
      a := |arrays|;
      arrays2 := arrays + [[]];
      templ2 := templ[p := Holder(a)];
    }
  }

  /** `templ[v[uniqueKey]] && (v[childrenKey] = templ[v[uniqueKey]][childrenKey])` on copy `i`. */
  method TakeOver(copies: array<Copy>, i: nat, arrays: seq<seq<nat>>, templ: map<string, Slot>, ghost result: seq<nat>, u: string)
    requires i < copies.Length && WF(Arena(copies[..i + 1], arrays, templ, result))
    modifies copies
    ensures Adopt(Arena(old(copies[..i + 1]), arrays, templ, result), i, u) == Arena(copies[..i + 1], arrays, templ, result)
    ensures forall k :: i < k < copies.Length ==> copies[k] == old(copies[k])
  {
    if u in templ {
      match templ[u]
      case Holder(h) =>
        copies[i] := copies[i].(kids := Arr(h));
      case CopyAt(j) =>
        var taken := if copies[j].kids.Absent? then UndefKids else copies[j].kids;
        copies[i] := copies[i].(kids := taken);
      assert copies[..i + 1] == old(copies[..i + 1])[i := copies[i]];
    }
  }

  /** `const v = { ..._v }` with its children array, stored as copy `i`. */
  method AddCopyAt(copies: array<Copy>, i: nat, arrays: seq<seq<nat>>, ghost templ: map<string, Slot>, ghost result: seq<nat>, rec: Rec, retain: bool)
    returns (arrays2: seq<seq<nat>>)
    requires i < copies.Length && WF(Arena(copies[..i], arrays, templ, result))
    modifies copies
    ensures AddCopy(Arena(old(copies[..i]), arrays, templ, result), rec, retain) == Arena(copies[..i + 1], arrays2, templ, result)
  {
    var kids := Absent;
    arrays2 := arrays;
    if retain {
      kids := Arr(|arrays|);
      arrays2 := arrays + [[]];
    }
    copies[i] := Copy(rec, kids);
    assert copies[..i + 1] == old(copies[..i]) + [Copy(rec, kids)];
  }

  /** One pass of the `source.every` callback on the arrays, for record `rec` at index `i`. */
  method StepAt(copies: array<Copy>, i: nat, arrays: seq<seq<nat>>, templ: map<string, Slot>, result: seq<nat>, rec: Rec, opt: Options)
    returns (arrays2: seq<seq<nat>>, templ2: map<string, Slot>, result2: seq<nat>)
    requires i < copies.Length && WF(Arena(copies[..i], arrays, templ, result))
    modifies copies
    ensures Step(Arena(old(copies[..i]), arrays, templ, result), rec, opt, AsWritten) == Arena(copies[..i + 1], arrays2, templ2, result2)
  {
    ghost var before := Arena(copies[..i], arrays, templ, result);
    arrays2 := AddCopyAt(copies, i, arrays, templ, result, rec, opt.retainChildrenKey);
    ghost var s0 := Arena(copies[..i + 1], arrays2, templ, result);
    assert s0 == AddCopy(before, rec, opt.retainChildrenKey);
    var u := PropertyKey(Get(rec, opt.uniqueKey));
    var parent := Get(rec, opt.parentKey);
    templ2, result2 := templ, result;
    if Truthy(parent) {
      var a;
      arrays2, templ2, a := AttachParent(copies, i + 1, arrays2, templ, result, PropertyKey(parent));
      arrays2 := arrays2[a := arrays2[a] + [i]];
    } else {
      result2 := result + [i];
      TakeOver(copies, i, arrays2, templ, result2, u);
    }
    templ2 := templ2[u := CopyAt(i)];
  }

  /**
   * `toTree(source, option)`: the roots it returns, with the copies (an array
   * indexed like `source`) and the children arrays they point into.
   */
  method ToTree(source: seq<Rec>, opt: Options) returns (result: seq<nat>, copies: array<Copy>, arrays: seq<seq<nat>>)
    ensures fresh(copies)
    ensures var r := Build(source, opt, AsWritten);
            copies[..] == r.copies && arrays == r.arrays && result == r.result
  {
    copies := new Copy[|source|](_ => Copy(map[], Absent));
    arrays := [];
    result := [];
    var templ: map<string, Slot> := map[];
    assert source[..0] == [];
    for i := 0 to |source|
      invariant Build(source[..i], opt, AsWritten) == Arena(copies[..i], arrays, templ, result)
    {
      BuildPrefix(source, i, opt, AsWritten);
      arrays, templ, result := StepAt(copies, i, arrays, templ, result, source[i], opt);
    }
    assert source[..|source|] == source;
    assert copies[..] == copies[..|source|];
  }
}
