/** A frame's fragment table: one optional payload per fragment index, as both receivers keep it. */
module Fragments {
  import opened Prelude

  /** A reassembled frame ready for the decoder. */
  datatype Frame = Frame(id: nat, isKey: bool, pts: nat, payload: Bytes)

  type Table = seq<Option<Bytes>>

  function EmptyTable(total: nat): (t: Table)
    ensures |t| == total && forall i :: 0 <= i < total ==> t[i] == None
  {
    seq(total, i => None)
  }

  /** How many fragments have arrived. */
  function Arrived(t: Table): (n: nat)
    ensures n <= |t|
  {
    if t == [] then 0 else (if t[0].Some? then 1 else 0) + Arrived(t[1..])
  }

  /** The payloads that arrived, joined in index order. */
  function Assemble(t: Table): Bytes {
    if t == [] then [] else (if t[0].Some? then t[0].value else []) + Assemble(t[1..])
  }

  lemma {:induction false} ArrivedStore(t: Table, i: nat, p: Bytes)
    requires i < |t| && t[i].None?
    ensures Arrived(t[i := Some(p)]) == Arrived(t) + 1
  {
    if i == 0 {
      assert t[0 := Some(p)][1..] == t[1..];
    } else {
      assert t[i := Some(p)][1..] == t[1..][i - 1 := Some(p)];
      ArrivedStore(t[1..], i - 1, p);
    }
  }

  lemma {:induction false} ArrivedAll(t: Table)
    ensures Arrived(t) == |t| <==> forall i :: 0 <= i < |t| ==> t[i].Some?
  {
    if t != [] {
      ArrivedAll(t[1..]);
      if t[0].Some? && forall i :: 0 <= i < |t[1..]| ==> t[1..][i].Some? {
        forall i | 0 <= i < |t| ensures t[i].Some? {
          if i > 0 { assert t[1..][i - 1].Some?; }
        }
      }
      if forall i :: 0 <= i < |t| ==> t[i].Some? {
        assert forall i :: 0 <= i < |t[1..]| ==> t[1..][i] == t[i + 1];
      }
    }
  }

  lemma {:induction false} ArrivedNone(t: Table)
    ensures Arrived(t) == 0 <==> forall i :: 0 <= i < |t| ==> t[i].None?
  {
    if t != [] {
      ArrivedNone(t[1..]);
      if t[0].None? && forall i :: 0 <= i < |t[1..]| ==> t[1..][i].None? {
        forall i | 0 <= i < |t| ensures t[i].None? {
          if i > 0 { assert t[1..][i - 1].None?; }
        }
      }
      if forall i :: 0 <= i < |t| ==> t[i].None? {
        assert forall i :: 0 <= i < |t[1..]| ==> t[1..][i] == t[i + 1];
      }
    }
  }

  /** A full table of known parts assembles to exactly those parts, in index order. */
  lemma {:induction false} AssembleAll(t: Table, parts: seq<Bytes>)
    requires |t| == |parts|
    requires forall i :: 0 <= i < |t| ==> t[i] == Some(parts[i])
    ensures Assemble(t) == Concat(parts)
  {
    if t != [] {
      assert forall i :: 0 <= i < |t[1..]| ==> t[1..][i] == t[i + 1];
      AssembleAll(t[1..], parts[1..]);
    }
  }
}
