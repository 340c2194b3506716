/** `read_alignment3d` and `read_alignment2d`: pull fixed families of affine
    parameters, `<t>_00`, `<t>_01`, ..., out of an alignment object, in order. */
module Alignment {
  import opened Wrappers
  import opened Errors
  import opened Payload
  import opened Format
  import opened Records

  /** `'%s_%02d' % (t, p)` */
  function ParamKey(t: string, p: nat): string {
    t + "_" + ZeroPadded(p, 2)
  }

  /** Different indices give different keys: each list element has its own entry. */
  lemma ParamKeyInjective(t: string, p: nat, q: nat)
    requires ParamKey(t, p) == ParamKey(t, q)
    ensures p == q
  {
    var n := |t| + 1;
    assert ParamKey(t, p)[n..] == ZeroPadded(p, 2);
    assert ParamKey(t, q)[n..] == ZeroPadded(q, 2);
    ZeroPaddedInjective(p, q, 2);
  }

  /** `[json[k] for k in ['%s_%02d' % (t, p) for p in range(n)]]`: the n values in
      index order; the first absent key (in index order) aborts the read. */
  function ReadGroup(fields: map<string, Value>, t: string, n: nat): (r: Result<seq<Value>, Error>)
    ensures r.Success? <==> forall p :: 0 <= p < n ==> ParamKey(t, p) in fields
    ensures r.Success? ==> |r.value| == n
    ensures r.Success? ==> forall p :: 0 <= p < n ==> r.value[p] == fields[ParamKey(t, p)]
    ensures r.Failure? ==> exists p :: 0 <= p < n && ParamKey(t, p) !in fields
                                       && r.error == MissingField(ParamKey(t, p))
                                       && forall q :: 0 <= q < p ==> ParamKey(t, q) in fields
  {
    if n == 0 then Success([])
    else
      var init :- ReadGroup(fields, t, n - 1);
      var key := ParamKey(t, n - 1);
      if key in fields then Success(init + [fields[key]]) else Failure(MissingField(key))
  }

  /** `read_alignment3d`: 12 `trv` values then 12 `tvr` values. A missing key
      (checked `trv` first) or a non-object is an error. */
  function ReadAlignment3d(v: Value): (r: Result<Alignment3d, Error>)
    ensures r.Success? <==>
      v.Obj? && forall p :: 0 <= p < 12 ==> ParamKey("trv", p) in v.fields && ParamKey("tvr", p) in v.fields
    ensures r.Success? ==> |r.value.trv| == 12 && |r.value.tvr| == 12
    ensures r.Success? ==> forall p :: 0 <= p < 12 ==>
      r.value.trv[p] == v.fields[ParamKey("trv", p)] && r.value.tvr[p] == v.fields[ParamKey("tvr", p)]
  {
    if !v.Obj? then Failure(WrongType("alignment3d"))
    else
      var trv :- ReadGroup(v.fields, "trv", 12);
      var tvr :- ReadGroup(v.fields, "tvr", 12);
      Success(Alignment3d(trv, tvr))
  }

  /** `read_alignment2d`: 6 `tsv` values then 6 `tvs` values. */
  function ReadAlignment2d(v: Value): (r: Result<Alignment2d, Error>)
    ensures r.Success? <==>
      v.Obj? && forall p :: 0 <= p < 6 ==> ParamKey("tsv", p) in v.fields && ParamKey("tvs", p) in v.fields
    ensures r.Success? ==> |r.value.tsv| == 6 && |r.value.tvs| == 6
    ensures r.Success? ==> forall p :: 0 <= p < 6 ==>
      r.value.tsv[p] == v.fields[ParamKey("tsv", p)] && r.value.tvs[p] == v.fields[ParamKey("tvs", p)]
  {
    if !v.Obj? then Failure(WrongType("alignment2d"))
    else
      var tsv :- ReadGroup(v.fields, "tsv", 6);
      var tvs :- ReadGroup(v.fields, "tvs", 6);
      Success(Alignment2d(tsv, tvs))
  }

  /** The key names are the two-digit zero-padded ones the alignment records use. */
  lemma KeySpelling()
    ensures ParamKey("trv", 0) == "trv_00"
    ensures ParamKey("tvr", 5) == "tvr_05"
    ensures ParamKey("trv", 11) == "trv_11"
    ensures ParamKey("tvs", 5) == "tvs_05"
  {
    assert Digits(5) == "5";
    assert Digits(11) == Digits(1) + "1";
  }

  /** An alignment object that lacks `tvr_05` is rejected with that key. */
  lemma MissingTvr05Rejected(fields: map<string, Value>)
    requires forall p :: 0 <= p < 12 ==> ParamKey("trv", p) in fields
    requires forall p :: 0 <= p < 5 ==> ParamKey("tvr", p) in fields
    requires "tvr_05" !in fields
    ensures ReadAlignment3d(Obj(fields)) == Failure(MissingField("tvr_05"))
  {
    KeySpelling();
    FirstMissingKey(fields, "tvr", 12, 5);
  }

  /** A group read fails on its first absent key, whatever follows it. */
  lemma FirstMissingKey(fields: map<string, Value>, t: string, n: nat, k: nat)
    requires k < n && ParamKey(t, k) !in fields
    requires forall p :: 0 <= p < k ==> ParamKey(t, p) in fields
    ensures ReadGroup(fields, t, n) == Failure(MissingField(ParamKey(t, k)))
  {
    var r := ReadGroup(fields, t, n);
    var p :| 0 <= p < n && ParamKey(t, p) !in fields && r.error == MissingField(ParamKey(t, p))
             && forall q :: 0 <= q < p ==> ParamKey(t, q) in fields;
    assert p == k;
  }
}
