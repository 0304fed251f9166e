/**
 Internal keys and the meaning of a read (db/dbformat.h, db/dbformat.cc).

 The store only ever compares user keys, and a run compares finitely many of them, so a
 user key is modelled by its rank in the user comparator's order; module Comparator
 proves that the ranks of any finite set of byte strings reproduce their order.
 */
module DbFormat {
  import opened Options

  const MAX_SEQUENCE: nat := 0xFF_FFFF_FFFF_FFFF

  type UserKey = int
  type Val = string

  datatype Kind = Deletion | Value

  datatype IKey = IKey(ukey: UserKey, seqno: nat, kind: Kind)

  datatype Entry = Entry(key: IKey, value: Val)

  /** PackSequenceAndType: the low eight bits hold the type. */
  function Tag(k: IKey): nat {
    k.seqno * 256 + if k.kind.Value? then 1 else 0
  }

  /** InternalKeyComparator::Compare(a, b) < 0: user key up, then packed tag down. */
  predicate Before(a: IKey, b: IKey) {
    a.ukey < b.ukey || (a.ukey == b.ukey && Tag(a) > Tag(b))
  }

  /** The internal key a lookup of `k` at snapshot `s` seeks to (LookupKey). */
  function SeekKey(k: UserKey, s: nat): IKey {
    IKey(k, s, Value)
  }

  ghost predicate Sorted(es: seq<Entry>) {
    forall i, j :: 0 <= i < j < |es| ==> Before(es[i].key, es[j].key)
  }

  /** No two entries carry the same version of the same user key. */
  ghost predicate UniqueVersions(S: set<Entry>) {
    forall e, f :: e in S && f in S && e.key.ukey == f.key.ukey && e.key.seqno == f.key.seqno ==> e == f
  }

  predicate Visible(e: Entry, k: UserKey, s: nat) {
    e.key.ukey == k && e.key.seqno <= s
  }

  /** `e` is the newest entry of `k` at or below snapshot `s`. */
  ghost predicate IsNewest(S: set<Entry>, k: UserKey, s: nat, e: Entry) {
    && e in S && Visible(e, k, s)
    && forall f :: f in S && Visible(f, k, s) ==> f.key.seqno <= e.key.seqno
  }

  function ValueOf(e: Entry): Option<Val> {
    if e.key.kind.Value? then Some(e.value) else None
  }

  /** What a read of `k` at `s` means: the newest entry at or below `s`, None if there is none or it is a deletion. */
  ghost function ReadAt(S: set<Entry>, k: UserKey, s: nat): Option<Val> {
    if exists e :: IsNewest(S, k, s, e) then
      var e :| IsNewest(S, k, s, e);
      ValueOf(e)
    else
      None
  }

  lemma {:induction false} NewestExists(S: set<Entry>, k: UserKey, s: nat, w: Entry) returns (e: Entry)
    requires w in S && Visible(w, k, s)
    ensures IsNewest(S, k, s, e)
    decreases S
  {
    if g :| g in S && Visible(g, k, s) && g.key.seqno > w.key.seqno {
      e := NewestExists(S - {w}, k, s, g);
    } else {
      e := w;
    }
  }

  lemma ReadIs(S: set<Entry>, k: UserKey, s: nat, e: Entry)
    requires UniqueVersions(S)
    requires IsNewest(S, k, s, e)
    ensures ReadAt(S, k, s) == ValueOf(e)
  {
    forall f | IsNewest(S, k, s, f) ensures f == e {
      assert f.key.seqno == e.key.seqno;
    }
  }

  lemma ReadNothing(S: set<Entry>, k: UserKey, s: nat)
    requires forall e :: e in S ==> !Visible(e, k, s)
    ensures ReadAt(S, k, s) == None
  {
  }
}
