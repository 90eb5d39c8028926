/** Whole sessions with the line store of ed: whatever is stored and read in between, each line comes back. */
module EdSession {
  import opened EdStore

  /** A line buffer to be stored; or the k-th of the lines stored to be read, with or without the mark. */
  datatype Request = Put(buf: seq<int>) | Get(k: nat, marked: bool)

  datatype Reply = Accepted | Full | Line(line: seq<int>) | NoSuch

  ghost predicate Proper(q: Request) {
    q.Put? ==> |q.buf| == LBSIZE && exists n :: Taken(q.buf, n)
  }

  /** The line in a buffer. */
  ghost function Front(buf: seq<int>): seq<int> {
    if buf == [] || buf[0] == 0 || buf[0] == NEWLINE then [] else [buf[0]] + Front(buf[1..])
  }

  lemma {:induction false} FrontTaken(buf: seq<int>, n: int)
    requires Taken(buf, n)
    ensures Front(buf) == buf[..n]
    decreases n
  {
    if n > 0 {
      FrontTaken(buf[1..], n - 1);
      assert buf[..n] == [buf[0]] + buf[1..][..n - 1];
    }
  }

  /** The lines that were accepted, in order. */
  ghost function Kept(qs: seq<Request>, rs: seq<Reply>): seq<seq<int>>
    requires |qs| == |rs|
  {
    if qs == [] then []
    else
      var q, r := qs[|qs| - 1], rs[|rs| - 1];
      Kept(qs[..|qs| - 1], rs[..|rs| - 1]) + if q.Put? && r == Accepted then [Front(q.buf)] else []
  }

  /** The reply that is right after requests qs were answered by rs; the first line is stored at byte 4 of the file. */
  ghost predicate Right(qs: seq<Request>, rs: seq<Reply>, q: Request, r: Reply)
    requires |qs| == |rs|
  {
    match q
    case Put(buf) => r == if (4 + Space(Kept(qs, rs)) + |Front(buf)|) / BLKSIZE < NBLK then Accepted else Full
    case Get(k, _) => r == if k < |Kept(qs, rs)| then Line(Kept(qs, rs)[k]) else NoSuch
  }

  ghost predicate AllRight(qs: seq<Request>, rs: seq<Reply>) {
    |qs| == |rs| && forall i :: 0 <= i < |qs| ==> Right(qs[..i], rs[..i], qs[i], rs[i])
  }

  lemma OneMore(qs: seq<Request>, rs: seq<Reply>, i: nat, r: Reply)
    requires i < |qs| && |rs| == i && AllRight(qs[..i], rs) && Right(qs[..i], rs, qs[i], r)
    ensures AllRight(qs[..i + 1], rs + [r])
    ensures Kept(qs[..i + 1], rs + [r]) ==
            Kept(qs[..i], rs) + if qs[i].Put? && r == Accepted then [Front(qs[i].buf)] else []
  {
    hide Kept, Right;
    forall j | 0 <= j <= i
      ensures Right(qs[..i + 1][..j], (rs + [r])[..j], qs[..i + 1][j], (rs + [r])[j])
    {
      assert qs[..i + 1][..j] == qs[..i][..j] == qs[..j];
      if j < i {
        assert (rs + [r])[..j] == rs[..j];
      } else {
        assert (rs + [r])[..j] == rs;
      }
    }
    KeptLast(qs[..i + 1], rs + [r]);
    assert qs[..i + 1][..i] == qs[..i] && (rs + [r])[..i] == rs;
  }

  lemma KeptLast(qs: seq<Request>, rs: seq<Reply>)
    requires |qs| == |rs| > 0
    ensures Kept(qs, rs) == Kept(qs[..|qs| - 1], rs[..|rs| - 1]) +
                            if qs[|qs| - 1].Put? && rs[|rs| - 1] == Accepted then [Front(qs[|qs| - 1].buf)] else []
  {
  }

  /** What putline returned for each line that was accepted. */
  ghost predicate Known(lines: map<int, seq<int>>, tls: seq<int>, kept: seq<seq<int>>) {
    |tls| == |kept| && forall k :: 0 <= k < |tls| ==> tls[k] in lines && lines[tls[k]] == kept[k]
  }

  /** From an empty store on, every request is answered rightly. */
  method Session(requests: seq<Request>) returns (replies: seq<Reply>)
    requires forall i :: 0 <= i < |requests| ==> Proper(requests[i])
    ensures AllRight(requests, replies)
  {
    hide AllRight, Right, Kept, Space, Taking, Taken, Front, AllStored, BuffersOk;
    var store := new Store();
    var tls := [];
    replies := [];
    var i := 0;
    Nothing(requests);
    while i < |requests|
      invariant 0 <= i <= |requests| && |replies| == i && AllRight(requests[..i], replies)
      invariant fresh(store) && store.Valid() && |store.linebuf| == LBSIZE
      invariant Known(store.lines, tls, Kept(requests[..i], replies))
      invariant 2 * store.tline == 4 + Space(Kept(requests[..i], replies))
      decreases |requests| - i
    {
      ghost var kept := Kept(requests[..i], replies);
      assert kept + [] == kept;
      var reply;
      match requests[i] {
        case Put(buf) =>
          ghost var n :| Taken(buf, n);
          FrontTaken(buf, n);
          TakenSize(buf, n);
          SpaceAdded(kept, buf[..n]);
          store.linebuf := buf;
          var ok, tl := store.PutLine(n);
          reply := if ok then Accepted else Full;
          tls := if ok then tls + [tl] else tls;
        case Get(k, marked) =>
          if k < |tls| {
            store.GoodLine(tls[k]);
            store.GetLine(if marked then tls[k] + 1 else tls[k], tls[k]);
            var line := UpToNul(store.linebuf, kept[k]);
            reply := Line(line);
          } else {
            reply := NoSuch;
          }
      }
      RightNow(requests[..i], replies, requests[i], reply);
      OneMore(requests, replies, i, reply);
      replies := replies + [reply];
      i := i + 1;
    }
    assert requests[..i] == requests;
  }

  lemma Nothing(qs: seq<Request>)
    ensures AllRight(qs[..0], []) && Kept(qs[..0], []) == [] && Space([]) == 0
  {
  }

  lemma RightNow(qs: seq<Request>, rs: seq<Reply>, q: Request, r: Reply)
    requires |qs| == |rs|
    requires q.Put? ==> r == if (4 + Space(Kept(qs, rs)) + |Front(q.buf)|) / BLKSIZE < NBLK then Accepted else Full
    requires q.Get? ==> r == if q.k < |Kept(qs, rs)| then Line(Kept(qs, rs)[q.k]) else NoSuch
    ensures Right(qs, rs, q, r)
  {
  }

  /** The line in the line buffer. */
  method UpToNul(buf: seq<int>, ghost line: seq<int>) returns (r: seq<int>)
    requires |line| < |buf| && buf[..|line|] == line && buf[|line|] == 0 && forall k :: 0 <= k < |line| ==> line[k] != 0
    ensures r == line
  {
    assert forall j :: 0 <= j < |line| ==> buf[j] == buf[..|line|][j] == line[j];
    var k := 0;
    while buf[k] != 0
      invariant 0 <= k <= |line|
      decreases |line| - k
    {
      k := k + 1;
    }
    return buf[..k];
  }
}
