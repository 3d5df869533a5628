/**
 How a stream offered in pieces is taken: the split into `write` calls does not matter, and every
 byte offered is in exactly one place.
 */
module UpdaterStream {
  import opened Bytes
  import opened FlashModel
  import opened ProcessorSpec
  import opened UpdaterSpec

  /** All bytes taken so far and `n` more stay within the announced size. */
  predicate Fits(s: Upd, n: nat) {
    s.progress + s.bufferLen + n <= s.size
  }

  lemma WriteBufferConserves(env: Env, s: Upd)
    requires WFBuffer(s) && s.error == OK && s.progress + s.bufferLen < WORD
    ensures var (r, ok) := WriteBuffer(env, s);
      && (ok ==> r.error == OK && r.progress + r.bufferLen == s.progress + s.bufferLen
                 && r.size == s.size && r.buf.Some?)
      && (!ok ==> r.error != OK)
  {
    hide ProcessHeader;
    hide ProcessPayload;
    hide EraseSector;
    hide ProgramBytes;
  }

  lemma AppendAgain(s: Upd, a: seq<byte>, b: seq<byte>)
    requires s.buf.Some? && s.bufferLen + |a| + |b| <= |s.buf.value|
    ensures Append(Append(s, a), b) == Append(s, a + b)
  {
    assert Append(Append(s, a), b).buf.value == Append(s, a + b).buf.value;
  }

  lemma FillConserves(env: Env, s: Upd, piece: seq<byte>)
    requires WF(s) && s.buf.Some? && s.bufferLen + |piece| <= SECTOR && s.error == OK
    requires s.progress + s.bufferLen + |piece| < WORD
    ensures var (r, ok) := Fill(env, s, piece);
      && (ok ==> r.error == OK && r.progress + r.bufferLen == s.progress + s.bufferLen + |piece| && r.size == s.size)
      && (!ok ==> r.error != OK)
  {
    hide WriteBuffer;
    WriteBufferConserves(env, Append(s, piece));
  }

  /** One turn of the loop, over what is left of the data after `done` bytes. */
  lemma LoopTurn(env: Env, s: Upd, data: seq<byte>, done: nat)
    requires WF(s) && s.buf.Some? && done < |data|
    ensures var l := Min(|data| - done, SECTOR - s.bufferLen);
            var (s1, ok) := Fill(env, s, data[done..done + l]);
            var (r, n) := WriteLoop(env, s, data[done..]);
      && (!ok ==> (r, n) == (s1, l))
      && (ok ==> (r, n) == (WriteLoop(env, s1, data[done + l..]).0, l + WriteLoop(env, s1, data[done + l..]).1))
      && (s.bufferLen == SECTOR || l > 0)
      && (l > 0 || s1.bufferLen == 0 || !ok)
      && (s.bufferLen + l < SECTOR ==> done + l == |data|)
  {
    hide Fill;
    var l := Min(|data| - done, SECTOR - s.bufferLen);
    assert data[done..][..l] == data[done..done + l];
    assert data[done..][l..] == data[done + l..];
  }

  /** A piece that leaves room in the buffer can be offered together with the next one. */
  lemma FillAbsorbs(env: Env, s: Upd, a: seq<byte>, b: seq<byte>)
    requires WF(s) && s.buf.Some? && s.bufferLen + |a| < SECTOR && s.bufferLen + |a| + |b| <= SECTOR
    requires Fits(s, |a| + 1)
    ensures Fill(env, s, a) == (Append(s, a), true) && WF(Append(s, a))
    ensures Fill(env, Append(s, a), b) == Fill(env, s, a + b)
  {
    hide WriteBuffer;
    AppendAgain(s, a, b);
  }

  lemma LoopAbsorbs(env: Env, s: Upd, a: seq<byte>, b: seq<byte>)
    requires WF(s) && s.buf.Some? && |s.buf.value| == SECTOR && s.bufferLen + |a| < SECTOR
    requires Fits(s, |a| + |b|) && a != [] && b != []
    ensures WF(Append(s, a)) && WriteLoop(env, s, a) == (Append(s, a), |a|)
    ensures var (r, n) := WriteLoop(env, Append(s, a), b); WriteLoop(env, s, a + b) == (r, |a| + n)
  {
    hide Fill;
    hide WF;
    hide Append;
    assert a[..|a|] == a && a[|a|..] == [];
    var l := Min(|b|, SECTOR - s.bufferLen - |a|);
    assert (a + b)[..|a| + l] == a + b[..l];
    assert (a + b)[|a| + l..] == b[l..];
    FillAbsorbs(env, s, a, b[..l]);
  }

  lemma LoopEmpty(env: Env, s: Upd)
    requires WF(s) && s.buf.Some?
    ensures WriteLoop(env, s, []) == (s, 0)
  {
  }

  /** The turn that fills the buffer is the same for `a` and for `a + b`. */
  lemma LoopTurns(env: Env, s: Upd, a: seq<byte>, b: seq<byte>)
    requires WF(s) && s.buf.Some? && a != [] && s.bufferLen <= SECTOR <= s.bufferLen + |a|
    ensures var l := SECTOR - s.bufferLen;
            var (s1, ok) := Fill(env, s, a[..l]);
      && (!ok ==> WriteLoop(env, s, a) == (s1, l) && WriteLoop(env, s, a + b) == (s1, l))
      && (ok ==> var (s2, n) := WriteLoop(env, s1, a[l..]); WriteLoop(env, s, a) == (s2, l + n))
      && (ok ==> var (s2, n) := WriteLoop(env, s1, a[l..] + b); WriteLoop(env, s, a + b) == (s2, l + n))
  {
    hide Fill;
    hide WF;
    var l := SECTOR - s.bufferLen;
    assert (a + b)[..l] == a[..l] && (a + b)[l..] == a[l..] + b;
    assert Min(|a|, l) == l == Min(|a + b|, l);
  }

  /** The loop of `write` over `a` and then over `b` does what one loop over both does. */
  lemma {:induction false} LoopSplits(env: Env, s: Upd, a: seq<byte>, b: seq<byte>)
    requires WF(s) && s.buf.Some? && s.error == OK && Fits(s, |a| + |b|)
    ensures var (s1, n1) := WriteLoop(env, s, a);
      && (s1.error != OK ==> WriteLoop(env, s, a + b) == (s1, n1))
      && (s1.error == OK ==>
            && n1 == |a| && s1.size == s.size && Fits(s1, |b|) && s1.buf.Some?
            && var (s2, n2) := WriteLoop(env, s1, b); WriteLoop(env, s, a + b) == (s2, n1 + n2))
    decreases |a|, if s.bufferLen == SECTOR then 1 else 0
  {
    hide Fill;
    hide WriteLoop;
    if a == [] {
      assert a + b == b;
      LoopEmpty(env, s);
    } else if b == [] {
      assert a + b == a;
      LoopKeeps(env, s, a);
      var s1 := WriteLoop(env, s, a).0;
      if s1.error == OK {
        LoopEmpty(env, s1);
      }
    } else if s.bufferLen + |a| < SECTOR {
      LoopAbsorbs(env, s, a, b);
    } else {
      var l := SECTOR - s.bufferLen;
      LoopTurns(env, s, a, b);
      FillConserves(env, s, a[..l]);
      var (s1, ok) := Fill(env, s, a[..l]);
      if ok {
        LoopSplits(env, s1, a[l..], b);
      }
    }
  }

  /** A loop that ends without error has taken everything and kept the total. */
  lemma {:induction false} LoopKeeps(env: Env, s: Upd, data: seq<byte>)
    requires WF(s) && s.buf.Some? && s.error == OK && s.progress + s.bufferLen + |data| < WORD
    ensures var (r, n) := WriteLoop(env, s, data);
      r.error == OK ==> n == |data| && r.buf.Some? && r.size == s.size &&
                        r.progress + r.bufferLen == s.progress + s.bufferLen + |data|
    decreases |data|, if s.bufferLen == SECTOR then 1 else 0
  {
    hide Fill;
    if data != [] {
      var l := Min(|data|, SECTOR - s.bufferLen);
      FillConserves(env, s, data[..l]);
      var (s1, ok) := Fill(env, s, data[..l]);
      if ok {
        LoopKeeps(env, s1, data[l..]);
      }
    }
  }

  /**
   The overfill test compares with `remaining()` and leaves out what the buffer holds. So a `write`
   that is let through and meets no error keeps the bytes taken within the announced size exactly
   when the data also fits behind the buffered bytes.
   */
  lemma OverfillExact(env: Env, s: Upd, data: seq<byte>)
    requires WF(s) && s.error == OK && s.size > 0 && Fits(s, 0)
    requires s.progress + s.bufferLen + |data| < WORD
    ensures var r := Write(env, s, data).0;
      && (|data| > s.size - s.progress ==> r == Abort(s, ERR_SPACE))
      && (|data| <= s.size - s.progress && r.error == OK ==> (Fits(r, 0) <==> Fits(s, |data|)))
  {
    hide WriteLoop;
    if |data| <= s.size - s.progress {
      LoopKeeps(env, s, data);
    }
  }

  /**
   An overfill that is let through: two writes, neither longer than the announced size but together
   longer, and together short of a sector. The buffer then holds more than was announced.
   */
  lemma OverfillHappens(env: Env, s: Upd, a: seq<byte>, b: seq<byte>)
    requires WF(s) && s.error == OK && s.buf.Some? && s.progress == s.bufferLen == 0
    requires 0 < |a| < s.size && 0 < |b| <= s.size < |a| + |b| < SECTOR
    ensures var r := Write(env, Write(env, s, a).0, b).0;
      r.error == OK && r.bufferLen == |a| + |b| > r.size && !Fits(r, 0)
  {
    hide WriteBuffer;
    assert a[..|a|] == a && a[|a|..] == [] && b[..|b|] == b && b[|b|..] == [];
    var s1 := Append(s, a);
    assert Fill(env, s, a) == (s1, true);
    assert WriteLoop(env, s, a) == (s1, |a|);
    assert Fill(env, s1, b) == (Append(s1, b), true);
    assert WriteLoop(env, s1, b) == (Append(s1, b), |b|);
  }

  /** `write(a)` then `write(b)` leaves and returns what `write(a ++ b)` does, failures included. */
  lemma ChunkingDoesNotMatter(env: Env, s: Upd, a: seq<byte>, b: seq<byte>)
    requires WF(s) && (s.error == OK && s.size > 0 ==> Fits(s, |a| + |b|))
    ensures var (s1, n1) := Write(env, s, a);
            var (s2, n2) := Write(env, s1, b);
            Write(env, s, a + b) == (s2, n1 + n2)
  {
    hide WriteLoop;
    if s.error == OK && s.size > 0 {
      LoopSplits(env, s, a, b);
    }
  }

  /** A whole upload: the pieces written one after the other. */
  function WriteAll(env: Env, s: Upd, pieces: seq<seq<byte>>): (r: Upd)
    requires WF(s)
    ensures WF(r)
    decreases |pieces|
  {
    if pieces == [] then s else WriteAll(env, Write(env, s, pieces[0]).0, pieces[1..])
  }

  function Flatten(pieces: seq<seq<byte>>): seq<byte> {
    if pieces == [] then [] else pieces[0] + Flatten(pieces[1..])
  }

  /** Any division of a stream into pieces leaves what one `write` of the stream leaves. */
  lemma {:induction false} AnyPieces(env: Env, s: Upd, pieces: seq<seq<byte>>)
    requires WF(s) && (s.error == OK && s.size > 0 ==> Fits(s, |Flatten(pieces)|))
    ensures WriteAll(env, s, pieces) == Write(env, s, Flatten(pieces)).0
    decreases |pieces|
  {
    hide Write;
    if pieces == [] {
      WriteNothing(env, s);
    } else {
      var rest := Flatten(pieces[1..]);
      var s1 := Write(env, s, pieces[0]).0;
      ChunkingDoesNotMatter(env, s, pieces[0], rest);
      WriteTotal(env, s, pieces[0], |rest|);
      AnyPieces(env, s1, pieces[1..]);
    }
  }

  lemma WriteNothing(env: Env, s: Upd)
    requires WF(s)
    ensures Write(env, s, []) == (s, 0)
  {
  }

  lemma WriteTotal(env: Env, s: Upd, data: seq<byte>, n: nat)
    requires WF(s) && (s.error == OK && s.size > 0 ==> Fits(s, |data| + n))
    ensures var r := Write(env, s, data).0; r.error == OK && r.size > 0 ==> Fits(r, n)
  {
    hide WriteLoop;
    if s.error == OK && s.size > 0 {
      LoopKeeps(env, s, data);
    }
  }
}
