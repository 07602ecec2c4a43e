/** The hash-chained audit ledger. */
module AuditLog {

  const GENESIS := 0

  /** What is hashed: the entry without its own hash. */
  datatype Body = Body(seqNo: int, event: string, payload: string, prev: int)

  datatype Entry = Entry(body: Body, hash: int)

  /** SHA-256 of the previous hash and the canonical body. */
  type Hash = (int, Body) -> int

  ghost predicate CollisionFree(h: Hash) {
    forall p, b, p', b' :: h(p, b) == h(p', b') ==> p == p' && b == b'
  }

  ghost predicate NeverGenesis(h: Hash) {
    forall p, b :: h(p, b) != GENESIS
  }

  /** The final hash of a log: what the chain head was after its last entry. */
  function Root(log: seq<Entry>): int {
    if log == [] then GENESIS else log[|log| - 1].hash
  }

  /** Every link is intact. */
  predicate Accepts(h: Hash, log: seq<Entry>) {
    forall i :: 0 <= i < |log| ==> log[i].body.prev == Root(log[..i]) && log[i].hash == h(Root(log[..i]), log[i].body)
  }

  class AuditLedger {
    const h: Hash
    var entries: seq<Entry>
    var head: int

    /** The chain is intact, the head is its root, and entries are numbered in order. */
    ghost predicate Valid()
      reads this
    {
      && Accepts(h, entries) && head == Root(entries)
      && forall i :: 0 <= i < |entries| ==> entries[i].body.seqNo == i
    }

    constructor (h: Hash)
      ensures Valid() && this.h == h && entries == []
    {
      this.h := h;
      entries, head := [], GENESIS;
    }

    method GetRoot() returns (root: int)
      requires Valid()
      ensures root == Root(entries)
    {
      root := head;
    }

    method Append(event: string, payload: string) returns (hash: int)
      requires Valid()
      modifies this
      ensures Valid() && head == hash
      ensures entries == old(entries) + [Entry(Body(|old(entries)|, event, payload, Root(old(entries))), hash)]
    {
      var body := Body(|entries|, event, payload, head);
      hash := h(head, body);
      AcceptsGrow(h, entries, Entry(body, hash));
      entries := entries + [Entry(body, hash)];
      head := hash;
    }
  }

  lemma AcceptsGrow(h: Hash, log: seq<Entry>, e: Entry)
    ensures Accepts(h, log + [e]) <==> Accepts(h, log) && e.body.prev == Root(log) && e.hash == h(Root(log), e.body)
  {
    var more := log + [e];
    assert more[..|log|] == log && more[|log|] == e;
    assert forall i :: 0 <= i < |log| ==> more[..i] == log[..i] && more[i] == log[i];
    if Accepts(h, more) {
      assert more[|log|].body.prev == Root(more[..|log|]);
      forall i | 0 <= i < |log|
        ensures log[i].body.prev == Root(log[..i]) && log[i].hash == h(Root(log[..i]), log[i].body)
      {
        assert more[i].body.prev == Root(more[..i]);
      }
    }
  }

  /** `verify`: accepts a log exactly when every link is intact. */
  method Verify(h: Hash, log: seq<Entry>) returns (ok: bool)
    ensures ok <==> Accepts(h, log)
  {
    var prev := GENESIS;
    for i := 0 to |log|
      invariant prev == Root(log[..i]) && Accepts(h, log[..i])
    {
      var e := log[i];
      AcceptsGrow(h, log[..i], e);
      assert log[..i] + [e] == log[..i + 1];
      if e.body.prev != prev || h(prev, e.body) != e.hash {
        PrefixIsAccepted(h, log, i + 1);
        return false;
      }
      prev := e.hash;
    }
    assert log[..|log|] == log;
    return true;
  }

  /** Verification alone accepts every truncation of an accepted log. */
  lemma PrefixIsAccepted(h: Hash, log: seq<Entry>, n: nat)
    requires n <= |log|
    ensures Accepts(h, log) ==> Accepts(h, log[..n])
  {
    assert forall i :: 0 <= i < n ==> log[..n][..i] == log[..i] && log[..n][i] == log[i];
  }

  /** With a collision-free hash that never yields the genesis value, two accepted logs with one root
      are one log: no entry can be changed, added, dropped or reordered under a fixed root. */
  lemma {:induction false} SameRootSameLog(h: Hash, a: seq<Entry>, b: seq<Entry>)
    requires CollisionFree(h) && NeverGenesis(h) && Accepts(h, a) && Accepts(h, b) && Root(a) == Root(b)
    ensures a == b
    decreases |a|
  {
    if a != [] && b != [] {
      var fa, fb := a[..|a| - 1], b[..|b| - 1];
      var ea, eb := a[|a| - 1], b[|b| - 1];
      assert a == fa + [ea] && b == fb + [eb];
      AcceptsGrow(h, fa, ea);
      AcceptsGrow(h, fb, eb);
      assert h(Root(fa), ea.body) == h(Root(fb), eb.body);
      SameRootSameLog(h, fa, fb);
    } else {
      RootIsNotGenesis(h, a);
      RootIsNotGenesis(h, b);
    }
  }

  lemma RootIsNotGenesis(h: Hash, log: seq<Entry>)
    requires NeverGenesis(h) && Accepts(h, log)
    ensures Root(log) == GENESIS <==> log == []
  {
    if log != [] {
      assert log[|log| - 1].hash == h(Root(log[..|log| - 1]), log[|log| - 1].body);
    }
  }

  /** A proper truncation is accepted but never has the same root. */
  lemma TruncationChangesRoot(h: Hash, log: seq<Entry>, n: nat)
    requires CollisionFree(h) && NeverGenesis(h) && Accepts(h, log) && n < |log|
    ensures Accepts(h, log[..n]) && Root(log[..n]) != Root(log)
  {
    PrefixIsAccepted(h, log, n);
    if Root(log[..n]) == Root(log) {
      SameRootSameLog(h, log[..n], log);
    }
  }

  // ----- Sequence numbers are hashed but not checked

  datatype Content = Content(seqNo: int, event: string, payload: string)

  function ContentOf(e: Entry): Content { Content(e.body.seqNo, e.body.event, e.body.payload) }

  /** The log that chains the given contents. */
  function Chained(h: Hash, cs: seq<Content>): seq<Entry> {
    if cs == [] then []
    else
      var before := Chained(h, cs[..|cs| - 1]);
      before + [Link(h, Root(before), cs[|cs| - 1])]
  }

  function Link(h: Hash, prev: int, c: Content): (e: Entry)
    ensures ContentOf(e) == c && e.body.prev == prev && e.hash == h(prev, e.body)
  {
    var body := Body(c.seqNo, c.event, c.payload, prev);
    Entry(body, h(prev, body))
  }

  ghost predicate Holds(log: seq<Entry>, cs: seq<Content>) {
    |log| == |cs| && forall i :: 0 <= i < |cs| ==> ContentOf(log[i]) == cs[i]
  }

  /** Whatever the numbers, events and payloads, exactly one log with them is accepted: verification
      accepts every numbering, repeated and missing numbers included. */
  lemma {:induction false} AnyNumberingIsAccepted(h: Hash, cs: seq<Content>, log: seq<Entry>)
    ensures Accepts(h, log) && Holds(log, cs) <==> log == Chained(h, cs)
  {
    hide Link, ContentOf;
    if cs == [] {
      assert Holds(log, cs) <==> log == [];
    } else if log == [] {
      assert Chained(h, cs) != [];
    } else {
      var n, m := |log| - 1, |cs| - 1;
      AnyNumberingIsAccepted(h, cs[..m], log[..n]);
      assert log == log[..n] + [log[n]];
      AcceptsGrow(h, log[..n], log[n]);
      HoldsStep(log, cs);
      ChainedStep(h, cs, log);
      LinkIsOnly(h, Root(log[..n]), cs[m], log[n]);
    }
  }

  lemma HoldsStep(log: seq<Entry>, cs: seq<Content>)
    requires log != [] && cs != []
    ensures Holds(log, cs) <==> Holds(log[..|log| - 1], cs[..|cs| - 1]) && ContentOf(log[|log| - 1]) == cs[|cs| - 1]
  {
    var n, m := |log| - 1, |cs| - 1;
    if Holds(log[..n], cs[..m]) && ContentOf(log[n]) == cs[m] {
      assert forall i :: 0 <= i < m ==> log[i] == log[..n][i] && cs[i] == cs[..m][i];
    }
  }

  lemma ChainedStep(h: Hash, cs: seq<Content>, log: seq<Entry>)
    requires log != [] && cs != []
    ensures var before, e := Chained(h, cs[..|cs| - 1]), log[|log| - 1];
            log == Chained(h, cs) <==> log[..|log| - 1] == before && e == Link(h, Root(before), cs[|cs| - 1])
  {
    hide Link;
    var before := Chained(h, cs[..|cs| - 1]);
    LastOf(log, before, Link(h, Root(before), cs[|cs| - 1]));
  }

  lemma LastOf(log: seq<Entry>, before: seq<Entry>, e: Entry)
    requires log != []
    ensures log == before + [e] <==> log[..|log| - 1] == before && log[|log| - 1] == e
  {
    assert log == log[..|log| - 1] + [log[|log| - 1]];
  }

  lemma LinkIsOnly(h: Hash, prev: int, c: Content, e: Entry)
    ensures e == Link(h, prev, c) <==> ContentOf(e) == c && e.body.prev == prev && e.hash == h(prev, e.body)
  {
  }
}
