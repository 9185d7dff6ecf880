/**
 * The extractor's metadata as the endpoint reads it, and the choice of the
 * best progressive format (one file carrying both audio and video).
 */
module Formats {
  import opened Wrappers

  /** A format dictionary; only the keys the endpoint reads. The top level of
      the metadata carries the same direct-link keys when the extractor
      resolved a single format itself. */
  datatype Format = Format(
    url: Option<string>,
    ext: Option<string>,
    formatId: Option<string>,
    acodec: Option<string>,
    vcodec: Option<string>,
    tbr: Option<real>,
    filesize: Option<int>,
    filesizeApprox: Option<int>,
    protocol: Option<string>)

  /** The metadata returned by the extractor. An absent key and a `None`
      value are both `None`. */
  datatype Info = Info(
    title: Option<string>,
    webpageUrl: Option<string>,
    duration: Option<real>,
    uploader: Option<string>,
    formats: Option<seq<Format>>,
    requestedFormats: Option<seq<Format>>,
    top: Format)

  /** The list of formats, empty when the key is absent or `None`. */
  function FormatList(info: Info): seq<Format> {
    info.formats.GetOr([])
  }

  /** A codec field names a codec: it is present and not the text "none". */
  predicate HasCodec(c: Option<string>) {
    c.Some? && c.value != "none"
  }

  predicate IsProgressive(f: Format) {
    HasCodec(f.acodec) && HasCodec(f.vcodec)
  }

  /** The progressive formats, in their original order. */
  function Progressives(fmts: seq<Format>): (ps: seq<Format>)
    ensures |ps| <= |fmts|
    ensures forall f :: f in ps <==> f in fmts && IsProgressive(f)
  {
    if fmts == [] then []
    else (if IsProgressive(fmts[0]) then [fmts[0]] else []) + Progressives(fmts[1..])
  }

  /** The filter works piece by piece: filtering a concatenation gives the
      filtered parts in the same order. With `ProgressivesSingleton` this fixes
      the list, duplicates and order included. */
  lemma {:induction false} ProgressivesConcat(a: seq<Format>, b: seq<Format>)
    ensures Progressives(a + b) == Progressives(a) + Progressives(b)
  {
    if a != [] {
      assert (a + b)[1..] == a[1..] + b;
      ProgressivesConcat(a[1..], b);
    } else {
      assert a + b == b;
    }
  }

  /** A single format is kept exactly when it is progressive. */
  lemma ProgressivesSingleton(f: Format)
    ensures Progressives([f]) == if IsProgressive(f) then [f] else []
  {
    assert [f][1..] == [];
  }

  /** The sort key: the bit rate, with a missing bit rate read as 0. */
  function SortKey(f: Format): real {
    f.tbr.GetOr(0.0)
  }

  predicate SortedDesc(s: seq<Format>) {
    forall i, j :: 0 <= i < j < |s| ==> SortKey(s[i]) >= SortKey(s[j])
  }

  /** The elements whose key is `k`, in order. */
  function WithKey(s: seq<Format>, k: real): seq<Format> {
    if s == [] then []
    else (if SortKey(s[0]) == k then [s[0]] else []) + WithKey(s[1..], k)
  }

  /** Places `x` in front of the first element whose key does not exceed its
      own, so `x` stays ahead of the elements with an equal key. */
  function Insert(x: Format, t: seq<Format>): seq<Format> {
    if t == [] || SortKey(t[0]) <= SortKey(x) then [x] + t
    else [t[0]] + Insert(x, t[1..])
  }

  /** `list.sort(key=SortKey, reverse=True)`: a stable sort by descending key. */
  function SortByTbrDesc(s: seq<Format>): seq<Format> {
    if s == [] then [] else Insert(s[0], SortByTbrDesc(s[1..]))
  }

  /** `pick_best_progressive(info)`: the head of the sorted progressive
      formats, or `None` when there is none. */
  function PickBestProgressive(info: Info): Option<Format> {
    var sorted := SortByTbrDesc(Progressives(FormatList(info)));
    if sorted == [] then None else Some(sorted[0])
  }

  // ---------------------------------------------------------------------
  // The sort

  lemma {:induction false} InsertPermutation(x: Format, t: seq<Format>)
    ensures multiset(Insert(x, t)) == multiset([x] + t)
  {
    if !(t == [] || SortKey(t[0]) <= SortKey(x)) {
      InsertPermutation(x, t[1..]);
      assert t == [t[0]] + t[1..];
    }
  }

  lemma {:induction false} InsertElements(x: Format, t: seq<Format>)
    ensures forall e :: e in Insert(x, t) ==> e == x || e in t
  {
    if !(t == [] || SortKey(t[0]) <= SortKey(x)) {
      InsertElements(x, t[1..]);
    }
  }

  lemma {:induction false} InsertSorted(x: Format, t: seq<Format>)
    requires SortedDesc(t)
    ensures SortedDesc(Insert(x, t))
  {
    if t == [] || SortKey(t[0]) <= SortKey(x) {
      var s := [x] + t;
      forall i, j | 0 <= i < j < |s| ensures SortKey(s[i]) >= SortKey(s[j]) {
        assert s[j] == t[j - 1];
        if i > 0 { assert s[i] == t[i - 1]; }
        else if j > 1 { assert SortKey(t[0]) >= SortKey(t[j - 1]); }
      }
    } else {
      var top := t[0];
      var tail := t[1..];
      var r := Insert(x, tail);
      assert SortedDesc(tail) by {
        forall i, j | 0 <= i < j < |tail| ensures SortKey(tail[i]) >= SortKey(tail[j]) {
          assert tail[i] == t[i + 1] && tail[j] == t[j + 1];
        }
      }
      InsertSorted(x, tail);
      InsertElements(x, tail);
      assert forall e :: e in r ==> SortKey(e) <= SortKey(top) by {
        forall e | e in r ensures SortKey(e) <= SortKey(top) {
          if e != x {
            var j :| 0 <= j < |tail| && tail[j] == e;
            assert t[j + 1] == e;
          }
        }
      }
      var s := [top] + r;
      assert Insert(x, t) == s;
      forall i, j | 0 <= i < j < |s| ensures SortKey(s[i]) >= SortKey(s[j]) {
        assert s[j] == r[j - 1];
        if i == 0 { assert s[j] in r; }
        else { assert s[i] == r[i - 1]; }
      }
    }
  }

  lemma {:induction false} InsertStable(x: Format, t: seq<Format>, k: real)
    ensures WithKey(Insert(x, t), k) == (if SortKey(x) == k then [x] else []) + WithKey(t, k)
  {
    var xs: seq<Format> := if SortKey(x) == k then [x] else [];
    if t == [] || SortKey(t[0]) <= SortKey(x) {
      assert ([x] + t)[1..] == t;
    } else {
      var top, tail := t[0], t[1..];
      var r := Insert(x, tail);
      var ts: seq<Format> := if SortKey(top) == k then [top] else [];
      InsertStable(x, tail, k);
      assert Insert(x, t) == [top] + r;
      assert ([top] + r)[1..] == r;
      assert WithKey([top] + r, k) == ts + WithKey(r, k);
      assert WithKey(t, k) == ts + WithKey(tail, k);
      assert xs == [] || ts == [];
    }
  }

  /** The sort rearranges its input without adding or losing anything. */
  lemma {:induction false} SortPermutation(s: seq<Format>)
    ensures multiset(SortByTbrDesc(s)) == multiset(s)
  {
    if s != [] {
      SortPermutation(s[1..]);
      InsertPermutation(s[0], SortByTbrDesc(s[1..]));
      assert s == [s[0]] + s[1..];
    }
  }

  /** The sort leaves the keys in descending order. */
  lemma {:induction false} SortSorted(s: seq<Format>)
    ensures SortedDesc(SortByTbrDesc(s))
  {
    if s != [] {
      SortSorted(s[1..]);
      InsertSorted(s[0], SortByTbrDesc(s[1..]));
    }
  }

  /** The sort is stable: the elements with any one key keep their relative
      order, even though the order is descending. */
  lemma {:induction false} SortStable(s: seq<Format>, k: real)
    ensures WithKey(SortByTbrDesc(s), k) == WithKey(s, k)
  {
    if s != [] {
      SortStable(s[1..], k);
      InsertStable(s[0], SortByTbrDesc(s[1..]), k);
    }
  }

  // ---------------------------------------------------------------------
  // The pick

  /** No pick exactly when no format is progressive. */
  lemma PickNoneIff(info: Info)
    ensures PickBestProgressive(info).None? <==>
      forall f :: f in FormatList(info) ==> !IsProgressive(f)
  {
    var ps := Progressives(FormatList(info));
    SortPermutation(ps);
    if ps != [] {
      assert ps[0] in ps;
      assert ps[0] in multiset(SortByTbrDesc(ps));
    }
  }

  /** The pick is a progressive format of the list whose key is at least that
      of every progressive format. */
  lemma PickIsBest(info: Info)
    ensures PickBestProgressive(info).Some? ==>
      var b := PickBestProgressive(info).value;
      b in FormatList(info) && IsProgressive(b) &&
      forall f :: f in FormatList(info) && IsProgressive(f) ==> SortKey(f) <= SortKey(b)
  {
    var ps := Progressives(FormatList(info));
    var sorted := SortByTbrDesc(ps);
    if sorted != [] {
      SortPermutation(ps);
      SortSorted(ps);
      assert sorted[0] in multiset(ps);
      forall f | f in FormatList(info) && IsProgressive(f) ensures SortKey(f) <= SortKey(sorted[0]) {
        assert f in multiset(sorted);
        var j :| 0 <= j < |sorted| && sorted[j] == f;
        if j > 0 { assert SortKey(sorted[0]) >= SortKey(sorted[j]); }
      }
    }
  }

  /** Of several progressive formats with the greatest key, the pick is the
      first in the list: every progressive format before it has a smaller key. */
  lemma PickIsEarliest(info: Info)
    ensures PickBestProgressive(info).Some? ==>
      var b := PickBestProgressive(info).value;
      exists i :: 0 <= i < |FormatList(info)| && FormatList(info)[i] == b &&
        forall j :: 0 <= j < i && IsProgressive(FormatList(info)[j]) ==> SortKey(FormatList(info)[j]) < SortKey(b)
  {
    var fmts := FormatList(info);
    var ps := Progressives(fmts);
    var sorted := SortByTbrDesc(ps);
    if sorted != [] {
      var b := sorted[0];
      var m := SortKey(b);
      PickIsBest(info);
      SortStable(ps, m);
      assert WithKey(sorted, m)[0] == b;
      var i := FirstWithKey(fmts, m);
      forall j | 0 <= j < i && IsProgressive(fmts[j]) ensures SortKey(fmts[j]) < m {
        assert fmts[j] in fmts;
      }
    }
  }

  /** Where the first progressive format with key `m` sits in the list. */
  lemma {:induction false} FirstWithKey(fmts: seq<Format>, m: real) returns (i: nat)
    requires WithKey(Progressives(fmts), m) != []
    ensures i < |fmts| && fmts[i] == WithKey(Progressives(fmts), m)[0]
    ensures forall j :: 0 <= j < i && IsProgressive(fmts[j]) ==> SortKey(fmts[j]) != m
  {
    var ps := Progressives(fmts);
    assert fmts != [];
    var rest := Progressives(fmts[1..]);
    if IsProgressive(fmts[0]) && SortKey(fmts[0]) == m {
      assert ps == [fmts[0]] + rest;
      i := 0;
    } else {
      assert WithKey(ps, m) == WithKey(rest, m) by {
        if IsProgressive(fmts[0]) {
          assert ps == [fmts[0]] + rest;
          assert ([fmts[0]] + rest)[1..] == rest;
        } else {
          assert ps == rest;
        }
      }
      var i' := FirstWithKey(fmts[1..], m);
      i := i' + 1;
      forall j | 0 < j < i && IsProgressive(fmts[j]) ensures SortKey(fmts[j]) != m {
        assert fmts[j] == fmts[1..][j - 1];
      }
    }
  }
}
