/** compress: the encoder, from bytes to the .Z file. */
module LzwCompress {
  import opened Bits
  import opened FiniteSets
  import opened LzwCodes
  import opened LzwHash
  import opened LzwGreedy
  import opened LzwWriter

  const CHECK_GAP := 10000

  function Header(ps: Params): (h: seq<byte>)
    requires ps.maxbits <= 31
    ensures |h| == 3
  {
    [0x1f, 0x9d, ps.maxbits + if ps.block then 128 else 0]
  }

  /** The encoder's table is one entry ahead of the decoder's, and its pending string is what is left of the input. */
  ghost predicate Ahead(ps: Params, d: Dec, etab: seq<Text>, ent: nat, text: Text) {
    && Sane(ps, d)
    && ent < |etab| && etab[ent] != [] && !(ps.block && ent == CLEAR)
    && etab == NextTab(ps, d, etab[ent][0])
    && (!d.phase.Running? ==> ent < 256)
    && text == d.out + etab[ent]
  }

  lemma AheadBounds(ps: Params, d: Dec, etab: seq<Text>, ent: nat, text: Text)
    requires Ahead(ps, d, etab, ent, text)
    ensures ps.FirstFree() <= |etab| <= ps.MaxMaxCode() && ent < 65536
    ensures Step(ps, d, ent) == Dec(Running, etab, ent, text)
    ensures Legal(ps, d, ent)
  {
    MaxMaxBounds(ps);
    Pending(ps, d, etab, ent);
    StepSane(ps, d, ent);
  }

  lemma AheadFacts(ps: Params, d: Dec, etab: seq<Text>, ent: nat, text: Text)
    requires Ahead(ps, d, etab, ent, text)
    ensures |d.out| < |text| && ent < |etab| && !IsClear(ps, d, ent)
    ensures ent < 256 ==> etab[ent] == [ent as byte]
    ensures ps.block && d.phase.Running? ==> IsClear(ps, d, CLEAR)
  {
    AheadBounds(ps, d, etab, ent, text);
    StepSane(ps, d, ent);
  }

  lemma Takes(s: Text, i: nat)
    requires i < |s|
    ensures s[..i + 1] == s[..i] + [s[i]] && s[..0] + [s[0]] == [s[0]] && s[..|s|] == s
  {
  }

  lemma AheadStart(ps: Params, c: byte)
    requires ps.Valid()
    ensures Ahead(ps, InitDec(ps), InitTab(ps), c, [c])
  {
    InitTapeOk(ps);
    assert InitTape(ps).SaneAt(ps, 0);
  }

  /** A hit lengthens the pending string by one byte. */
  lemma AheadHit(ps: Params, d: Dec, etab: seq<Text>, ent: nat, text: Text, c: byte, code: nat)
    requires Ahead(ps, d, etab, ent, text) && code < |etab| && etab[code] == etab[ent] + [c]
    ensures Ahead(ps, d, etab, code, text + [c])
  {
    AheadBounds(ps, d, etab, ent, text);
    StepSane(ps, d, ent);
  }

  /** A miss sends the pending string off and starts a new one; the table may gain an entry. */
  lemma AheadMiss(ps: Params, d: Dec, etab: seq<Text>, ent: nat, text: Text, c: byte)
    requires Ahead(ps, d, etab, ent, text)
    ensures var etab' := if |etab| < ps.MaxMaxCode() then etab + [etab[ent] + [c]] else etab;
      Ahead(ps, Step(ps, d, ent), etab', c, text + [c])
  {
    AheadBounds(ps, d, etab, ent, text);
    StepSane(ps, d, ent);
    MaxMaxBounds(ps);
  }

  lemma AheadClear(ps: Params, d: Dec, etab: seq<Text>, c: byte, text: Text)
    requires Ahead(ps, d, etab, c, text) && ps.block && d.phase.Running?
    ensures Ahead(ps, Step(ps, d, CLEAR), InitTab(ps), c, text)
    ensures Legal(ps, d, CLEAR) && Step(ps, d, CLEAR).phase.Cleared?
  {
    StepSane(ps, d, CLEAR);
  }

  /** The positive ones of these keys are in the table. */
  ghost predicate InTable(h: seq<int>, keys: set<nat>) {
    forall k :: k in keys && k > 0 ==> k in h
  }

  class Compressor {
    const ps: Params
    const w: Writer
    const dict: Dictionary
    var in_count: nat
    var checkpoint: nat
    ghost var etab: seq<Text>
    /** the keys of the entries made since the last CLEAR */
    ghost var keys: set<nat>

    ghost predicate Wired()
    {
      && w.ps == ps && dict.maxbits == ps.maxbits && dict.Sized()
      && w.buf as object != dict.htab && w.buf as object != dict.codetab
    }

    ghost predicate Valid(ent: nat, text: Text)
      reads this, w, w.buf, dict, dict.htab, dict.codetab
    {
      Held(ent, text) && in_count == |text|
    }

    /** As Valid, when the next byte has perhaps been counted. */
    ghost predicate Held(ent: nat, text: Text)
      reads this, w, w.buf, dict, dict.htab, dict.codetab
    {
      && Wired() && w.Valid() && !w.clear_flg && w.free_ent == |etab|
      && Ahead(ps, w.tape.LastDec(), etab, ent, text)
      && dict.Sound(etab)
      && |dict.Taken()| + ps.FirstFree() <= |etab|
      && Parse(ps, w.tape, text, keys)
      && Findable(dict.htab[..], ps.maxbits) && InTable(dict.htab[..], keys)
    }

    constructor (ps: Params, c: byte)
      requires ps.Valid()
      ensures this.ps == ps && Valid(c, [c]) && fresh(w) && fresh(w.buf) && fresh(dict) && fresh(dict.htab)
      ensures fresh(dict.codetab)
    {
      this.ps := ps;
      w := new Writer(ps);
      var dict' := new Dictionary(ps.maxbits);
      dict := dict';
      in_count := 1;
      checkpoint := CHECK_GAP;
      etab := InitTab(ps);
      keys := {};
      AheadStart(ps, c);
      NothingSent(ps, [c]);
      dict'.ClHash(HSIZE);
    }

    /** Once the table is full, now and then: if the ratio has fallen, start the table over. */
    method ClBlock(ent: nat, ghost text: Text, ratioFell: bool)
      requires Valid(ent, text) && ps.block && w.tape.LastDec().phase.Running? && ent < 256
      requires etab[ent] == [ent as byte]
      modifies this, w, w.buf, dict.htab
      ensures Valid(ent, text) && checkpoint == in_count + CHECK_GAP && in_count == old(in_count)
      ensures w.tape == if ratioFell then old(w.tape).Snoc(ps, CLEAR) else old(w.tape)
    {
      hide Findable, InTable, Parse, Ahead, Step, Legal;
      checkpoint := in_count + CHECK_GAP;
      if ratioFell {
        AheadFacts(ps, w.tape.LastDec(), etab, ent, text);
        AheadClear(ps, w.tape.LastDec(), etab, ent as byte, text);
        ClearMore(ps, w.tape, text, keys);
        dict.ClHash(HSIZE);
        w.free_ent := FIRST;
        w.clear_flg := true;
        w.Output(CLEAR);
        etab := InitTab(ps);
        keys := {};
        NoKeys(dict.htab[..]);
      }
    }

    /** The key of the pending string and the next byte is in the table. */
    ghost predicate Known(ent: nat, c: byte)
      reads this, dict, dict.htab
    {
      Fcode(ps.maxbits, c, ent) > 0 && Fcode(ps.maxbits, c, ent) in dict.htab[..]
    }

    /** One more input byte: if the key is in the table nothing is sent; if it is not, the pending code is. */
    method Next(ent: nat, c: byte, ghost text: Text, ratioFell: nat -> bool) returns (ent': nat)
      requires Valid(ent, text)
      modifies this, w, w.buf, dict.htab, dict.codetab
      ensures Valid(ent', text + [c])
      ensures old(Known(ent, c)) ==> w.tape == old(w.tape)
      ensures old(Fcode(ps.maxbits, c, ent) !in dict.htab[..]) ==> old(w.tape).Snoc(ps, ent).codes <= w.tape.codes
    {
      hide Findable, InTable, Parse, Ahead, Reaches;
      in_count := in_count + 1;
      AheadBounds(ps, w.tape.LastDec(), etab, ent, text);
      MaxMaxBounds(ps);
      var hit, i := dict.Lookup(c, ent);
      if hit {
        ent' := dict.codetab[i];
        FcodeParts(ps.maxbits, c, ent);
        assert EntryOk(ps.maxbits, etab, dict.htab[i], dict.codetab[i]);
        AheadHit(ps, w.tape.LastDec(), etab, ent, text, c, ent');
        TextGrows(ps, w.tape, text, c, keys);
      } else {
        NotKnown(dict.htab[..], keys, Fcode(ps.maxbits, c, ent));
        Miss(i, ent, c, text, ratioFell);
        ent' := c;
      }
    }

    /** What is sent on a miss: the pending code, and after it CLEAR, if the table is full, it is time to look at the
      * ratio, and it has fallen. */
    ghost function Sends(ent: nat, ratioFell: nat -> bool): Tape
      requires w.tape.Shaped()
      reads this, w
    {
      var t := w.tape.Snoc(ps, ent);
      if |etab| >= ps.MaxMaxCode() && in_count >= checkpoint && ps.block && ratioFell(in_count) then t.Snoc(ps, CLEAR)
      else t
    }

    method Miss(i: nat, ent: nat, c: byte, ghost text: Text, ratioFell: nat -> bool)
      requires Held(ent, text) && in_count == |text| + 1 && i < HSIZE && dict.htab[i] <= 0
      requires Reaches(dict.htab[..], ps.maxbits, Fcode(ps.maxbits, c, ent), i)
      requires Fcode(ps.maxbits, c, ent) !in keys || Fcode(ps.maxbits, c, ent) == 0
      modifies this, w, w.buf, dict.htab, dict.codetab
      ensures Valid(c, text + [c]) && in_count == old(in_count) && w.tape == old(Sends(ent, ratioFell))
      ensures checkpoint == old(if |etab| >= ps.MaxMaxCode() && in_count >= checkpoint && ps.block
                                then in_count + CHECK_GAP else checkpoint)
    {
      hide Findable, InTable, Parse, Ahead, Reaches, Fcode, Step, Legal;
      var room := Send(ent, c, text);
      if room {
        Insert(i, c, ent);
      } else {
        assert keys + {} == keys;
        if in_count >= checkpoint && ps.block {
          AheadFacts(ps, w.tape.LastDec(), etab, c, text + [c]);
          ClBlock(c, text + [c], ratioFell(in_count));
        }
      }
    }

    /** Sends the pending code; there may be room for an entry. */
    method Send(ent: nat, c: byte, ghost text: Text) returns (room: bool)
      requires Held(ent, text)
      requires Fcode(ps.maxbits, c, ent) !in keys || Fcode(ps.maxbits, c, ent) == 0
      modifies w, w.buf
      ensures Wired() && w.Valid() && !w.clear_flg && w.free_ent == |etab|
      ensures w.tape == old(w.tape).Snoc(ps, ent)
      ensures room == (|etab| < ps.MaxMaxCode()) && ent < |etab| <= ps.MaxMaxCode()
      ensures Ahead(ps, w.tape.LastDec(), if room then etab + [etab[ent] + [c]] else etab, c, text + [c])
      ensures Parse(ps, w.tape, text + [c], keys + if room then {Fcode(ps.maxbits, c, ent)} else {})
      ensures w.tape.LastDec().phase.Running?
    {
      hide Findable, InTable, Parse, Ahead, Fcode, Step, Legal;
      AheadBounds(ps, w.tape.LastDec(), etab, ent, text);
      AheadFacts(ps, w.tape.LastDec(), etab, ent, text);
      AheadMiss(ps, w.tape.LastDec(), etab, ent, text, c);
      KeyZero(ps.maxbits, c, ent);
      SendMore(ps, w.tape, text, ent, c, keys);
      w.Output(ent);
      room := w.free_ent < ps.MaxMaxCode();
    }

    /** End of input: write the pending code, and what is left in the buffer. */
    method Finish(ent: nat, ghost text: Text)
      requires Valid(ent, text)
      modifies w, w.buf
      ensures w.tape.Ok(ps) && w.tape.Stores(w.stdout) && w.tape.LastDec().out == text && Greedy(ps, w.tape, text)
    {
      hide Parse, Greedy;
      AheadBounds(ps, w.tape.LastDec(), etab, ent, text);
      LastSent(ps, w.tape, text, ent, keys);
      w.Output(ent);
      w.OutputEof();
    }

    /** Enter the string of ent followed by c under the first unused code, in slot i. */
    method Insert(i: nat, c: byte, ent: nat)
      requires Wired() && dict.Sound(etab) && w.free_ent == |etab| && i < HSIZE && dict.htab[i] <= 0
      requires ent < |etab| <= ps.MaxMaxCode() && ps.maxbits == dict.maxbits
      requires Findable(dict.htab[..], ps.maxbits) && InTable(dict.htab[..], keys)
      requires Reaches(dict.htab[..], ps.maxbits, Fcode(ps.maxbits, c, ent), i)
      modifies w`free_ent, dict.htab, dict.codetab, this`etab, this`keys
      ensures keys == old(keys) + {Fcode(ps.maxbits, c, ent)}
      ensures Findable(dict.htab[..], ps.maxbits) && InTable(dict.htab[..], keys)
      ensures etab == old(etab) + [old(etab)[ent] + [c]] && w.free_ent == |etab|
      ensures dict.Sound(etab) && |dict.Taken()| <= old(|dict.Taken()|) + 1
    {
      hide Findable, Reaches, InTable, EntryOk, Fcode;
      NewEntry(ps.maxbits, etab, ent, c);
      FilledFindable(dict.htab[..], ps.maxbits, i, Fcode(ps.maxbits, c, ent));
      FilledTable(dict.htab[..], keys, i, Fcode(ps.maxbits, c, ent));
      keys := keys + {Fcode(ps.maxbits, c, ent)};
      ghost var was, h := dict.Taken(), dict.htab[..];
      dict.codetab[i] := w.free_ent;
      w.free_ent := w.free_ent + 1;
      dict.htab[i] := Fcode(ps.maxbits, c, ent);
      assert dict.htab[..] == h[i := Fcode(ps.maxbits, c, ent)];
      ghost var etab' := etab + [etab[ent] + [c]];
      forall j | 0 <= j < HSIZE && dict.htab[j] >= 0
        ensures EntryOk(ps.maxbits, etab', dict.htab[j], dict.codetab[j])
      {
        if j != i { EntryKept(ps.maxbits, etab, [etab[ent] + [c]], old(dict.htab[j]), old(dict.codetab[j])); }
      }
      etab := etab';
      assert dict.Taken() <= was + {i as int};
      SubsetSize(dict.Taken(), was + {i as int});
    }

    /** The bytes after the first, and the end. */
    method Encode(input: seq<byte>, ratioFell: nat -> bool)
      requires input != [] && Valid(input[0], [input[0]])
      modifies this, w, w.buf, dict.htab, dict.codetab
      ensures w.tape.Ok(ps) && w.tape.Stores(w.stdout) && w.tape.LastDec().out == input && Greedy(ps, w.tape, input)
    {
      hide Greedy, Compressor.Held;
      var ent: nat, i := input[0], 1;
      Takes(input, 0);
      while i < |input|
        invariant 1 <= i <= |input|
        invariant Valid(ent, input[..i])
      {
        Takes(input, i);
        ent := Next(ent, input[i], input[..i], ratioFell);
        i := i + 1;
      }
      Finish(ent, input[..i]);
    }
  }

  lemma EntryKept(maxbits: nat, etab: seq<Text>, more: seq<Text>, key: nat, code: nat)
    requires EntryOk(maxbits, etab, key, code)
    ensures EntryOk(maxbits, etab + more, key, code)
  {
  }

  lemma NewEntry(maxbits: nat, etab: seq<Text>, ent: nat, c: byte)
    requires ent < |etab| && ent < Pow2(maxbits)
    ensures EntryOk(maxbits, etab + [etab[ent] + [c]], Fcode(maxbits, c, ent), |etab|)
  {
    FcodeParts(maxbits, c, ent);
  }

  lemma NoKeys(h: seq<int>)
    ensures InTable(h, {})
  {
  }

  lemma KeyZero(maxbits: nat, c: byte, ent: nat)
    ensures Fcode(maxbits, c, ent) == 0 ==> c == 0 && ent == 0
  {
    if c >= 1 { MulMono(Pow2(maxbits), 1, c); }
  }

  lemma NotKnown(h: seq<int>, keys: set<nat>, key: nat)
    requires InTable(h, keys) && (key == 0 || forall j :: 0 <= j < |h| ==> h[j] != key)
    ensures key !in keys || key == 0
  {
  }

  lemma FilledTable(h: seq<int>, keys: set<nat>, i: nat, key: nat)
    requires InTable(h, keys) && i < |h| && h[i] <= 0
    ensures InTable(h[i := key], keys + {key})
  {
    var g := h[i := key];
    forall k | k in keys + {key} && k > 0 ensures k in g {
      if k != key {
        var j :| 0 <= j < |h| && h[j] == k;
        assert g[j] == k;
      } else {
        assert g[i] == k;
      }
    }
  }

  /**
   Compress the input. The test of the compression ratio in cl_block is a free choice here:
   ratioFell(n) says how it comes out after n bytes.
   */
  method Compress(ps: Params, input: seq<byte>, ratioFell: nat -> bool) returns (file: seq<byte>, ghost tape: Tape)
    requires ps.Valid()
    ensures 3 <= |file| && file[..3] == Header(ps)
    ensures tape.Ok(ps) && tape.Stores(file[3..]) && tape.LastDec().out == input && Greedy(ps, tape, input)
  {
    if input == [] {
      // getchar() gives EOF, and output(EOF) only flushes what is an empty buffer.
      var w := new Writer(ps);
      w.OutputEof();
      file, tape := Header(ps) + w.stdout, w.tape;
      return;
    }
    var e := new Compressor(ps, input[0]);
    e.Encode(input, ratioFell);
    file, tape := Header(ps) + e.w.stdout, e.w.tape;
    assert file[3..] == e.w.stdout;
  }
}
