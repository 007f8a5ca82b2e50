/** Emulation prevention (section 7.4.1 of ITU-T H.264): the parser removes the 03 bytes that a
    writer inserts so that no start code appears inside a NAL unit. */
module EmulationPrevention {
  import opened Words
  import opened StartCodes

  function Zeros(zeros: nat, b: u8): nat {
    if b == 0 then zeros + 1 else 0
  }

  /** The parser's reading of the bytes after the header, `zeros` zeros having just gone by. */
  function Unescape(s: Bytes, zeros: nat): Bytes {
    if s == [] then []
    else if zeros >= 2 && s[0] == 3 && |s| > 1 && s[1] <= 3 then Unescape(s[1..], 0)
    else [s[0]] + Unescape(s[1..], Zeros(zeros, s[0]))
  }

  /** The writer's insertion: after two zeros, 03 goes in front of any byte up to 03. */
  function Escape(s: Bytes, zeros: nat): Bytes {
    if s == [] then []
    else if zeros >= 2 && s[0] <= 3 then [3, s[0]] + Escape(s[1..], Zeros(0, s[0]))
    else [s[0]] + Escape(s[1..], Zeros(zeros, s[0]))
  }

  /** Byte `i` is an emulation prevention byte, when `zeros` zero bytes stand in front of `s`: a 03
      behind two zeros, and a byte of at most 03 behind it. */
  predicate PreventsAt(s: Bytes, zeros: nat, i: nat) {
    && i + 1 < |s| && s[i] == 3 && s[i + 1] <= 3
    && (if i >= 2 then s[i - 1] == 0 && s[i - 2] == 0 else if i == 1 then s[0] == 0 && zeros >= 1 else zeros >= 2)
  }

  ghost predicate NothingPrevents(s: Bytes, zeros: nat) {
    forall i: nat :: !PreventsAt(s, zeros, i)
  }

  lemma PreventsLater(s: Bytes, zeros: nat)
    requires s != []
    ensures NothingPrevents(s, zeros) <==>
            !PreventsAt(s, zeros, 0) && NothingPrevents(s[1..], Zeros(zeros, s[0]))
  {
    var t, z := s[1..], Zeros(zeros, s[0]);
    if NothingPrevents(s, zeros) {
      forall i: nat
        ensures !PreventsAt(t, z, i)
      {
        assert !PreventsAt(s, zeros, i + 1);
      }
    }
    if !PreventsAt(s, zeros, 0) && NothingPrevents(t, z) {
      forall i: nat
        ensures !PreventsAt(s, zeros, i)
      {
        if i > 0 {
          assert !PreventsAt(t, z, i - 1);
        }
      }
    }
  }

  lemma {:induction false} UnescapeShortens(s: Bytes, zeros: nat)
    ensures |Unescape(s, zeros)| <= |s|
  {
    if s != [] {
      UnescapeShortens(s[1..], 0);
      UnescapeShortens(s[1..], Zeros(zeros, s[0]));
    }
  }

  /** Removal changes a payload exactly if there is such a byte in it: a 03 at the end stays, and one
      before a larger byte. */
  lemma {:induction false} UnescapeChangesExactly(s: Bytes, zeros: nat)
    ensures Unescape(s, zeros) == s <==> NothingPrevents(s, zeros)
  {
    if s != [] {
      var t, z := s[1..], Zeros(zeros, s[0]);
      UnescapeAt(s, 0, zeros);
      PreventsLater(s, zeros);
      assert s[0..] == s && s == [s[0]] + t;
      hide NothingPrevents, Unescape;
      UnescapeShortens(t, 0);
      UnescapeChangesExactly(t, z);
      if !PreventsAt(s, zeros, 0) {
        SameRest(s[0], Unescape(t, z), t);
      }
    }
  }

  lemma SameRest(first: u8, a: Bytes, b: Bytes)
    ensures [first] + a == [first] + b <==> a == b
  {
    assert ([first] + a)[1..] == a && ([first] + b)[1..] == b;
  }

  /** Without two zeros in a row nothing is inserted. */
  lemma {:induction false} PlainEscape(s: Bytes, zeros: nat)
    requires forall i | 0 <= i < |s| - 1 :: s[i] != 0 || s[i + 1] != 0
    requires zeros == 0 || (zeros == 1 && (s != [] ==> s[0] != 0))
    ensures Escape(s, zeros) == s
  {
    if s != [] {
      PlainEscape(s[1..], Zeros(zeros, s[0]));
    }
  }

  lemma UnescapeAt(nal: Bytes, i: nat, zeros: nat)
    requires i < |nal|
    ensures Unescape(nal[i..], zeros) ==
            if zeros >= 2 && nal[i] == 3 && i + 1 < |nal| && nal[i + 1] <= 3 then Unescape(nal[i + 1..], 0)
            else [nal[i]] + Unescape(nal[i + 1..], Zeros(zeros, nal[i]))
  {
    assert nal[i..][1..] == nal[i + 1..];
  }

  /** One byte taken over, or left out, on the way to `whole`. */
  lemma UnescapeStep(nal: Bytes, i: nat, zeros: nat, out: Bytes, whole: Bytes)
    requires i < |nal| && out + Unescape(nal[i..], zeros) == whole
    ensures if zeros >= 2 && nal[i] == 3 && i + 1 < |nal| && nal[i + 1] <= 3
            then out + Unescape(nal[i + 1..], 0) == whole
            else out + [nal[i]] + Unescape(nal[i + 1..], Zeros(zeros, nal[i])) == whole
  {
    UnescapeAt(nal, i, zeros);
    hide Unescape;
    var rest := Unescape(nal[i + 1..], Zeros(zeros, nal[i]));
    assert out + ([nal[i]] + rest) == out + [nal[i]] + rest;
  }

  lemma UnescapeEnds(nal: Bytes, zeros: nat, out: Bytes)
    ensures out + Unescape(nal[|nal|..], zeros) == out
  {
  }

  method RbspFromNal(nal: Bytes, header: nat) returns (rbsp: Option<Bytes>)
    ensures rbsp == if |nal| <= header then None else Some(Unescape(nal[header..], 0))
  {
    hide Unescape;
    if |nal| <= header {
      return None;
    }
    var out: Bytes := [];
    var zeros := 0;
    ghost var whole := Unescape(nal[header..], 0);
    assert [] + whole == whole;
    for i := header to |nal|
      invariant out + Unescape(nal[i..], zeros) == whole
    {
      UnescapeStep(nal, i, zeros, out, whole);
      if zeros >= 2 && nal[i] == 3 && i + 1 < |nal| && nal[i + 1] <= 3 {
        zeros := 0;
      } else {
        out := out + [nal[i]];
        zeros := if nal[i] == 0 then zeros + 1 else 0;
      }
    }
    UnescapeEnds(nal, zeros, out);
    rbsp := Some(out);
  }

  /** Removal undoes insertion, whatever the payload. */
  lemma {:induction false} UnescapeEscape(s: Bytes, zeros: nat)
    ensures Unescape(Escape(s, zeros), zeros) == s
    decreases |s|
  {
    if s != [] {
      var e := Escape(s, zeros);
      if zeros >= 2 && s[0] <= 3 {
        UnescapeEscape(s[1..], Zeros(0, s[0]));
        assert e[1..] == [s[0]] + Escape(s[1..], Zeros(0, s[0]));
        assert e[1..][1..] == Escape(s[1..], Zeros(0, s[0]));
      } else {
        UnescapeEscape(s[1..], Zeros(zeros, s[0]));
        assert e[1..] == Escape(s[1..], Zeros(zeros, s[0]));
      }
    }
  }

  /** No three-byte start code anywhere. */
  predicate Clean(p: Bytes) {
    forall i | 0 <= i < |p| - 2 :: !(p[i] == 0 && p[i + 1] == 0 && p[i + 2] == 1)
  }

  /** Nor one that begins in the `zeros` zero bytes in front of `p`. */
  predicate CleanAfter(p: Bytes, zeros: nat) {
    && Clean(p)
    && (zeros >= 1 && |p| >= 2 ==> !(p[0] == 0 && p[1] == 1))
    && (zeros >= 2 && |p| >= 1 ==> p[0] != 1)
  }

  lemma CleanCons(b: u8, p: Bytes)
    requires Clean(p) && (b == 0 && |p| >= 2 ==> !(p[0] == 0 && p[1] == 1))
    ensures Clean([b] + p)
  {
    var q := [b] + p;
    forall i | 0 <= i < |q| - 2
      ensures !(q[i] == 0 && q[i + 1] == 0 && q[i + 2] == 1)
    {
      if i > 0 {
        assert q[i] == p[i - 1] && q[i + 1] == p[i] && q[i + 2] == p[i + 1];
      }
    }
  }

  lemma {:induction false} EscapedIsClean(s: Bytes, zeros: nat)
    ensures CleanAfter(Escape(s, zeros), zeros)
    decreases |s|
  {
    if s != [] {
      if zeros >= 2 && s[0] <= 3 {
        var rest := Escape(s[1..], Zeros(0, s[0]));
        EscapedIsClean(s[1..], Zeros(0, s[0]));
        CleanCons(s[0], rest);
        CleanCons(3, [s[0]] + rest);
        assert [3, s[0]] + rest == [3] + ([s[0]] + rest);
      } else {
        EscapedIsClean(s[1..], Zeros(zeros, s[0]));
        CleanCons(s[0], Escape(s[1..], Zeros(zeros, s[0])));
      }
    }
  }

  lemma {:induction false} EscapedEndsAlike(s: Bytes, zeros: nat)
    requires s != []
    ensures Escape(s, zeros) != [] && Last(Escape(s, zeros)) == Last(s)
    decreases |s|
  {
    if |s| > 1 {
      var inserts := zeros >= 2 && s[0] <= 3;
      var rest := Escape(s[1..], if inserts then Zeros(0, s[0]) else Zeros(zeros, s[0]));
      assert Escape(s, zeros) == (if inserts then [3, s[0]] else [s[0]]) + rest;
      EscapedEndsAlike(s[1..], if inserts then Zeros(0, s[0]) else Zeros(zeros, s[0]));
      hide Escape;
    }
  }

  function Last(s: Bytes): u8
    requires s != []
  {
    s[|s| - 1]
  }

  /** The NAL unit written for a header byte and a payload. */
  function Written(header: u8, rbsp: Bytes): Bytes {
    [header] + Escape(rbsp, 0)
  }

  /** A unit that can stand between start codes. */
  predicate Framable(unit: Bytes) {
    unit != [] && Clean(unit) && Last(unit) != 0
  }

  lemma WrittenIsFramable(header: u8, rbsp: Bytes)
    requires header != 0 && (rbsp != [] ==> Last(rbsp) != 0)
    ensures Framable(Written(header, rbsp))
    ensures Unescape(Written(header, rbsp)[1..], 0) == rbsp
  {
    EscapedIsClean(rbsp, 0);
    if rbsp != [] {
      EscapedEndsAlike(rbsp, 0);
    }
    CleanCons(header, Escape(rbsp, 0));
    UnescapeEscape(rbsp, 0);
    assert Written(header, rbsp)[1..] == Escape(rbsp, 0);
  }
}
