/** Which codes compress sends: none when the dictionary could have taken in one more byte. */
module LzwGreedy {
  import opened Bits
  import opened LzwCodes
  import opened LzwHash

  /** Code k was sent, and was not CLEAR, and there is a byte of text after what it stands for. */
  ghost predicate Sent(ps: Params, t: Tape, text: Text, k: nat)
    requires t.Shaped() && k < |t.codes|
  {
    !IsClear(ps, t.ds[k], t.codes[k]) && |t.ds[k + 1].out| < |text|
  }

  /** The byte after what the codes up to k stand for. */
  ghost function Follower(t: Tape, text: Text, k: nat): byte
    requires t.Shaped() && k < |t.codes|
  {
    if |t.ds[k + 1].out| < |text| then text[|t.ds[k + 1].out|] else 0
  }

  /** When code k was sent the table had room: its string and the byte after it became an entry. */
  ghost predicate Entered(ps: Params, t: Tape, text: Text, k: nat)
    requires t.Shaped() && k < |t.codes|
  {
    Sent(ps, t, text, k) && |t.ds[k + 1].tab| < ps.MaxMaxCode()
  }

  /** No CLEAR between codes j and k. */
  ghost predicate SameRun(ps: Params, t: Tape, j: nat, k: nat)
    requires t.Shaped() && k <= |t.codes|
  {
    forall i :: j < i < k ==> !IsClear(ps, t.ds[i], t.codes[i])
  }

  /** Code j made an entry, and code k was sent although that entry says the same code and the same byte after it. */
  ghost predicate Missed(ps: Params, t: Tape, text: Text, j: nat, k: nat)
    requires t.Shaped() && j < k < |t.codes|
  {
    && Entered(ps, t, text, j) && Sent(ps, t, text, k) && SameRun(ps, t, j, k)
    && t.codes[j] == t.codes[k] && Follower(t, text, j) == Follower(t, text, k)
  }

  /** No entry was missed, but for the one with key 0: code 0 and a byte 0 after it. */
  ghost predicate Greedy(ps: Params, t: Tape, text: Text) {
    && t.Shaped()
    && forall j: nat, k: nat :: j < k < |t.codes| && Missed(ps, t, text, j, k) ==>
         t.codes[k] == 0 && Follower(t, text, k) == 0
  }

  // ----- Kept while codes are sent -----

  ghost predicate Behind(t: Tape, text: Text) {
    t.Shaped() && forall k: nat :: k < |t.codes| ==> BehindAt(t, text, k)
  }

  ghost predicate BehindAt(t: Tape, text: Text, k: nat)
    requires t.Shaped() && k < |t.codes|
  {
    |t.ds[k + 1].out| < |text|
  }

  /** The keys of all entries since the last CLEAR are in keys. */
  ghost predicate Recorded(ps: Params, t: Tape, text: Text, keys: set<nat>) {
    && t.Shaped()
    && forall j: nat :: j < |t.codes| && Entered(ps, t, text, j) && SameRun(ps, t, j, |t.codes|) ==>
         Fcode(ps.maxbits, Follower(t, text, j), t.codes[j]) in keys
  }

  ghost predicate Parse(ps: Params, t: Tape, text: Text, keys: set<nat>) {
    Behind(t, text) && Greedy(ps, t, text) && Recorded(ps, t, text, keys)
  }

  lemma NothingSent(ps: Params, text: Text)
    ensures Parse(ps, InitTape(ps), text, {})
  {
  }

  lemma TextGrows(ps: Params, t: Tape, text: Text, c: byte, keys: set<nat>)
    requires Parse(ps, t, text, keys)
    ensures Parse(ps, t, text + [c], keys)
  {
    var more := text + [c];
    forall k: nat | k < |t.codes|
      ensures BehindAt(t, text, k) && BehindAt(t, more, k) && Follower(t, more, k) == Follower(t, text, k)
      ensures Sent(ps, t, more, k) == Sent(ps, t, text, k) && Entered(ps, t, more, k) == Entered(ps, t, text, k)
    {
      assert BehindAt(t, text, k);
    }
    forall j: nat, k: nat | j < k < |t.codes| && Missed(ps, t, more, j, k)
      ensures t.codes[k] == 0 && Follower(t, more, k) == 0
    {
      assert Missed(ps, t, text, j, k);
    }
  }

  /** The stream with one more code is the same up to there. */
  lemma SnocSame(ps: Params, t: Tape, text: Text, ent: nat, j: nat)
    requires t.Shaped() && j < |t.codes|
    ensures var u := t.Snoc(ps, ent);
      && u.codes[j] == t.codes[j] && u.ds[j] == t.ds[j] && u.ds[j + 1] == t.ds[j + 1]
      && Sent(ps, u, text, j) == Sent(ps, t, text, j) && Entered(ps, u, text, j) == Entered(ps, t, text, j)
      && SameRun(ps, u, j, |t.codes|) == SameRun(ps, t, j, |t.codes|)
      && (SameRun(ps, u, j, |u.codes|) ==>
            SameRun(ps, t, j, |t.codes|) && !IsClear(ps, t.LastDec(), ent))
  {
    var u := t.Snoc(ps, ent);
    forall i: nat | i < |t.codes| ensures u.codes[i] == t.codes[i] && u.ds[i] == t.ds[i] {
    }
    assert u.ds[|t.codes|] == t.LastDec() && u.codes[|t.codes|] == ent;
  }

  /** One more code misses nothing if none of the entries so far is missed by it. */
  lemma GreedyMore(ps: Params, t: Tape, text: Text, ent: nat)
    requires Greedy(ps, t, text)
    requires var u := t.Snoc(ps, ent);
      forall j: nat :: j < |t.codes| && Missed(ps, u, text, j, |t.codes|) ==>
        ent == 0 && Follower(u, text, |t.codes|) == 0
    ensures Greedy(ps, t.Snoc(ps, ent), text)
  {
    hide Sent, Entered, SameRun;
    var u := t.Snoc(ps, ent);
    forall j: nat, k: nat | j < k < |u.codes| && Missed(ps, u, text, j, k)
      ensures u.codes[k] == 0 && Follower(u, text, k) == 0
    {
      if k < |t.codes| {
        MissedBefore(ps, t, text, ent, j, k);
      }
    }
  }

  lemma MissedBefore(ps: Params, t: Tape, text: Text, ent: nat, j: nat, k: nat)
    requires t.Shaped() && j < k < |t.codes| && Missed(ps, t.Snoc(ps, ent), text, j, k)
    ensures Missed(ps, t, text, j, k)
    ensures var u := t.Snoc(ps, ent); u.codes[k] == t.codes[k] && Follower(u, text, k) == Follower(t, text, k)
  {
    var u := t.Snoc(ps, ent);
    SnocSame(ps, t, text, ent, j);
    SnocSame(ps, t, text, ent, k);
    forall i | j < i < k ensures !IsClear(ps, t.ds[i], t.codes[i]) {
      assert !IsClear(ps, u.ds[i], u.codes[i]);
    }
  }

  /** The pending code is sent, because no entry has its key with the next byte. */
  lemma SendMore(ps: Params, t: Tape, text: Text, ent: nat, c: byte, keys: set<nat>)
    requires Parse(ps, t, text, keys) && Step(ps, t.LastDec(), ent).out == text
    requires !IsClear(ps, t.LastDec(), ent)
    requires Fcode(ps.maxbits, c, ent) !in keys || (c == 0 && ent == 0)
    ensures var u := t.Snoc(ps, ent);
      Parse(ps, u, text + [c], keys + if |u.LastDec().tab| < ps.MaxMaxCode() then {Fcode(ps.maxbits, c, ent)} else {})
  {
    hide Fcode;
    TextGrows(ps, t, text, c, keys);
    var u, more, n := t.Snoc(ps, ent), text + [c], |t.codes|;
    assert u.ds[n + 1] == u.LastDec() && u.codes[n] == ent && u.ds[n] == t.LastDec();
    assert Follower(u, more, n) == c;
    forall j: nat | j < n ensures BehindAt(u, more, j) && Follower(u, more, j) == Follower(t, more, j) {
      assert BehindAt(t, more, j);
      SnocSame(ps, t, more, ent, j);
    }
    forall j: nat | j < n && Missed(ps, u, more, j, n)
      ensures ent == 0 && Follower(u, more, n) == 0
    {
      SnocSame(ps, t, more, ent, j);
      assert Fcode(ps.maxbits, Follower(t, more, j), t.codes[j]) in keys;
    }
    GreedyMore(ps, t, more, ent);
    forall j: nat | j < |u.codes| && Entered(ps, u, more, j) && SameRun(ps, u, j, |u.codes|) && j < n
      ensures Fcode(ps.maxbits, Follower(u, more, j), u.codes[j]) in keys
    {
      SnocSame(ps, t, more, ent, j);
    }
  }

  /** After CLEAR no entry counts. */
  lemma ClearMore(ps: Params, t: Tape, text: Text, keys: set<nat>)
    requires Parse(ps, t, text, keys) && IsClear(ps, t.LastDec(), CLEAR) && |t.LastDec().out| < |text|
    ensures Parse(ps, t.Snoc(ps, CLEAR), text, {})
  {
    var u, n := t.Snoc(ps, CLEAR), |t.codes|;
    assert u.ds[n] == t.LastDec() && u.codes[n] == CLEAR && u.ds[n + 1] == u.LastDec();
    assert !Sent(ps, u, text, n);
    GreedyMore(ps, t, text, CLEAR);
    forall j: nat | j < |u.codes| && Entered(ps, u, text, j) ensures !SameRun(ps, u, j, |u.codes|) {
      if j < n { SnocSame(ps, t, text, CLEAR, j); }
    }
    forall j: nat | j < n ensures BehindAt(u, text, j) {
      assert BehindAt(t, text, j);
      SnocSame(ps, t, text, CLEAR, j);
    }
  }

  /** The last code has no byte after it. */
  lemma LastSent(ps: Params, t: Tape, text: Text, ent: nat, keys: set<nat>)
    requires Parse(ps, t, text, keys) && Step(ps, t.LastDec(), ent).out == text
    ensures Greedy(ps, t.Snoc(ps, ent), text)
  {
    var u, n := t.Snoc(ps, ent), |t.codes|;
    assert u.ds[n + 1] == u.LastDec();
    assert !Sent(ps, u, text, n);
    GreedyMore(ps, t, text, ent);
  }
}
