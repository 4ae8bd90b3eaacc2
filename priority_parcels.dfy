/** The two priority-list parcels: UpdatePriorityRequestParcel carries a
    package order and a data category, GetPriorityResponseParcel a package
    order. Both are immutable once built, so they are values here; writing
    and reading go through a Parcel. */
module PriorityParcels {
  import opened Base
  import opened Parcels

  /** A DataOrigin: the package that contributed data. */
  datatype DataOrigin = DataOrigin(packageName: string)

  datatype UpdatePriorityRequest = UpdatePriorityRequest(dataOriginInOrder: seq<DataOrigin>, dataCategory: Int32)

  datatype GetPriorityResponse = GetPriorityResponse(dataOriginInPriority: seq<DataOrigin>)

  /** The package name of each origin, in the same order. */
  function PackageNames(origins: seq<DataOrigin>): seq<string>
  {
    seq(|origins|, i requires 0 <= i < |origins| => origins[i].packageName)
  }

  // ---- UpdatePriorityRequestParcel ----

  /** The fields are the getters getPackagePriorityOrder and getDataCategory. */
  datatype UpdatePriorityRequestParcel = UpdatePriorityRequestParcel(packagePriorityOrder: seq<string>, dataCategory: Int32)
  {
    function DescribeContents(): int { 0 }
  }

  /** The constructor from an UpdatePriorityRequest. */
  function UpdateParcelFromRequest(req: UpdatePriorityRequest): (p: UpdatePriorityRequestParcel)
    ensures |p.packagePriorityOrder| == |req.dataOriginInOrder|
    ensures forall i :: 0 <= i < |req.dataOriginInOrder| ==>
              p.packagePriorityOrder[i] == req.dataOriginInOrder[i].packageName
    ensures p.dataCategory == req.dataCategory
  {
    UpdatePriorityRequestParcel(PackageNames(req.dataOriginInOrder), req.dataCategory)
  }

  /** writeToParcel: the package list, then the category. */
  function EncodeUpdateParcel(p: UpdatePriorityRequestParcel): seq<Cell>
    requires |p.packagePriorityOrder| < 0x8000_0000
  {
    EncodeStringList(p.packagePriorityOrder) + [IntCell(p.dataCategory)]
  }

  /** The parcel constructor: a string list, then an int. */
  function DecodeUpdateParcel(cs: seq<Cell>, pos: nat): Result<(UpdatePriorityRequestParcel, nat)>
  {
    var list :- DecodeStringList(cs, pos);
    var category :- Need(IntAt(cs, list.1));
    Ok((UpdatePriorityRequestParcel(list.0, category), list.1 + 1))
  }

  lemma UpdateParcelRoundTrip(cs: seq<Cell>, pos: nat, p: UpdatePriorityRequestParcel)
    requires |p.packagePriorityOrder| < 0x8000_0000
    requires At(cs, pos, EncodeUpdateParcel(p))
    ensures DecodeUpdateParcel(cs, pos) == Ok((p, pos + |EncodeUpdateParcel(p)|))
  {
    var list := EncodeStringList(p.packagePriorityOrder);
    AtSplit(cs, pos, list, [IntCell(p.dataCategory)]);
    StringListRoundTrip(cs, pos, p.packagePriorityOrder);
    assert cs[pos + |list|] == cs[pos + |list|..pos + |list| + 1][0];
  }

  /** A request sent through a parcel arrives as its package names, in the
      request's order, with its category. */
  lemma RequestThroughParcel(pre: seq<Cell>, req: UpdatePriorityRequest)
    requires |req.dataOriginInOrder| < 0x8000_0000
    ensures var d := DecodeUpdateParcel(pre + EncodeUpdateParcel(UpdateParcelFromRequest(req)), |pre|);
            && d.Ok?
            && |d.value.0.packagePriorityOrder| == |req.dataOriginInOrder|
            && (forall i :: 0 <= i < |req.dataOriginInOrder| ==>
                  d.value.0.packagePriorityOrder[i] == req.dataOriginInOrder[i].packageName)
            && d.value.0.dataCategory == req.dataCategory
  {
    var p := UpdateParcelFromRequest(req);
    var cs := pre + EncodeUpdateParcel(p);
    assert cs[|pre|..|pre| + |EncodeUpdateParcel(p)|] == EncodeUpdateParcel(p);
    UpdateParcelRoundTrip(cs, |pre|, p);
  }

  method WriteUpdateParcel(p: UpdatePriorityRequestParcel, dest: Parcel)
    requires |p.packagePriorityOrder| < 0x8000_0000
    modifies dest
    ensures dest.cells == old(dest.cells) + EncodeUpdateParcel(p) && dest.pos == old(dest.pos)
  {
    dest.WriteStringList(p.packagePriorityOrder);
    dest.WriteInt(p.dataCategory);
  }

  method CreateUpdateParcel(src: Parcel) returns (r: Result<UpdatePriorityRequestParcel>)
    requires src.Valid()
    modifies src`pos
    ensures src.Valid()
    ensures r.Ok? <==> DecodeUpdateParcel(src.cells, old(src.pos)).Ok?
    ensures r.Ok? ==> (r.value == DecodeUpdateParcel(src.cells, old(src.pos)).value.0
                       && src.pos == DecodeUpdateParcel(src.cells, old(src.pos)).value.1)
  {
    var list := src.CreateStringArrayList();
    if list.Err? {
      return Err(list.error);
    }
    var category := src.ReadInt();
    if category.None? {
      return Err(Malformed);
    }
    r := Ok(UpdatePriorityRequestParcel(list.value, category.value));
  }

  // ---- GetPriorityResponseParcel ----

  datatype GetPriorityResponseParcel = GetPriorityResponseParcel(packagesInPriorityOrder: seq<string>)
  {
    function DescribeContents(): int { 0 }
  }

  /** The constructor from a GetPriorityResponse. */
  function ResponseParcelFromResponse(resp: GetPriorityResponse): (p: GetPriorityResponseParcel)
    ensures |p.packagesInPriorityOrder| == |resp.dataOriginInPriority|
    ensures forall i :: 0 <= i < |resp.dataOriginInPriority| ==>
              p.packagesInPriorityOrder[i] == resp.dataOriginInPriority[i].packageName
  {
    GetPriorityResponseParcel(PackageNames(resp.dataOriginInPriority))
  }

  /** writeToParcel: only the package list. */
  function EncodeResponseParcel(p: GetPriorityResponseParcel): seq<Cell>
    requires |p.packagesInPriorityOrder| < 0x8000_0000
  {
    EncodeStringList(p.packagesInPriorityOrder)
  }

  function DecodeResponseParcel(cs: seq<Cell>, pos: nat): Result<(GetPriorityResponseParcel, nat)>
  {
    var list :- DecodeStringList(cs, pos);
    Ok((GetPriorityResponseParcel(list.0), list.1))
  }

  lemma ResponseParcelRoundTrip(cs: seq<Cell>, pos: nat, p: GetPriorityResponseParcel)
    requires |p.packagesInPriorityOrder| < 0x8000_0000
    requires At(cs, pos, EncodeResponseParcel(p))
    ensures DecodeResponseParcel(cs, pos) == Ok((p, pos + |EncodeResponseParcel(p)|))
  {
    StringListRoundTrip(cs, pos, p.packagesInPriorityOrder);
  }

  method WriteResponseParcel(p: GetPriorityResponseParcel, dest: Parcel)
    requires |p.packagesInPriorityOrder| < 0x8000_0000
    modifies dest
    ensures dest.cells == old(dest.cells) + EncodeResponseParcel(p) && dest.pos == old(dest.pos)
  {
    dest.WriteStringList(p.packagesInPriorityOrder);
  }

  method CreateResponseParcel(src: Parcel) returns (r: Result<GetPriorityResponseParcel>)
    requires src.Valid()
    modifies src`pos
    ensures src.Valid()
    ensures r.Ok? <==> DecodeResponseParcel(src.cells, old(src.pos)).Ok?
    ensures r.Ok? ==> (r.value == DecodeResponseParcel(src.cells, old(src.pos)).value.0
                       && src.pos == DecodeResponseParcel(src.cells, old(src.pos)).value.1)
  {
    var list := src.CreateStringArrayList();
    if list.Err? {
      return Err(list.error);
    }
    r := Ok(GetPriorityResponseParcel(list.value));
  }
}
