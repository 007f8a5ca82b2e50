/** Annex B start codes: the three bytes 00 00 01, or four with a zero in front. */
module StartCodes {
  import opened Words

  type Bytes = seq<u8>

  datatype Code = Code(pos: nat, size: nat)

  predicate CodeAt(p: Bytes, i: nat) {
    i + 3 <= |p| && p[i] == 0 && p[i + 1] == 0 &&
    (p[i + 2] == 1 || (i + 3 < |p| && p[i + 2] == 0 && p[i + 3] == 1))
  }

  /** The first start code at or after `from`. */
  function FirstCode(p: Bytes, from: nat): (r: Option<Code>)
    ensures r.Some? ==> from <= r.value.pos && 3 <= r.value.size && r.value.pos + r.value.size <= |p|
    decreases |p| - from
  {
    if from + 3 > |p| then None
    else if CodeAt(p, from) then Some(Code(from, if p[from + 2] == 1 then 3 else 4))
    else FirstCode(p, from + 1)
  }

  /** It is a match, nothing before it is, and without a result nothing at all is. */
  lemma {:induction false} FirstCodeFinds(p: Bytes, from: nat)
    ensures var r := FirstCode(p, from);
            if r.Some? then
              && CodeAt(p, r.value.pos) && r.value.size == (if p[r.value.pos + 2] == 1 then 3 else 4)
              && forall j | from <= j < r.value.pos :: !CodeAt(p, j)
            else
              forall j | from <= j :: !CodeAt(p, j)
    decreases |p| - from
  {
    if from + 3 <= |p| && !CodeAt(p, from) {
      FirstCodeFinds(p, from + 1);
    }
  }

  method StartCode(p: Bytes, from: nat) returns (r: Option<Code>)
    ensures r == FirstCode(p, from)
  {
    var i := from;
    while i + 3 <= |p|
      invariant from <= i && FirstCode(p, i) == FirstCode(p, from)
      decreases |p| - i
    {
      if p[i] == 0 && p[i + 1] == 0 {
        if p[i + 2] == 1 {
          return Some(Code(i, 3));
        }
        if i + 3 < |p| && p[i + 2] == 0 && p[i + 3] == 1 {
          return Some(Code(i, 4));
        }
      }
      i := i + 1;
    }
    return None;
  }

  /** A search result is determined by where the first match is. */
  lemma {:induction false} FirstCodeIs(p: Bytes, from: nat, i: nat)
    requires from <= i && CodeAt(p, i) && forall j | from <= j < i :: !CodeAt(p, j)
    ensures FirstCode(p, from) == Some(Code(i, if p[i + 2] == 1 then 3 else 4))
    decreases i - from
  {
    if from < i {
      FirstCodeIs(p, from + 1, i);
    }
  }

  /** More bytes never change the first start code already found. */
  lemma {:induction false} FirstCodeStable(p: Bytes, more: Bytes, from: nat)
    requires FirstCode(p, from).Some?
    ensures FirstCode(p + more, from) == FirstCode(p, from)
    decreases |p| - from
  {
    if !CodeAt(p, from) {
      FirstCodeStable(p, more, from + 1);
    }
  }

  /** Searching a suffix is searching the whole from its start. */
  lemma {:induction false} FirstCodeShift(p: Bytes, k: nat, from: nat)
    requires k <= |p|
    ensures var r := FirstCode(p[k..], from);
            FirstCode(p, k + from) == if r.Some? then Some(Code(k + r.value.pos, r.value.size)) else None
    decreases |p| - from
  {
    assert CodeAt(p[k..], from) == CodeAt(p, k + from);
    if k + from + 3 <= |p| && !CodeAt(p, k + from) {
      FirstCodeShift(p, k, from + 1);
    }
  }
}
