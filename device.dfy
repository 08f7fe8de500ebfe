/**
 * The port key of a subcircuit instance (CDevice::CreatePortKey): the
 * master's name followed by the global net id of each port, written in
 * hexadecimal. Instances with equal keys are candidates for parallel
 * instance merging.
 */
module Devices {
  import opened Text

  /** Instances with more ports than this get no key. */
  const MAX_KEYED_PORTS: nat := 10

  /** Every local signal id indexes the local-to-global net map. */
  predicate Mappable(signalIds: seq<nat>, localToGlobal: seq<nat>) {
    forall i :: 0 <= i < |signalIds| ==> signalIds[i] < |localToGlobal|
  }

  /** The global net id of each port, in port order. */
  function GlobalIds(signalIds: seq<nat>, localToGlobal: seq<nat>): (ids: seq<nat>)
    requires Mappable(signalIds, localToGlobal)
    ensures |ids| == |signalIds|
    ensures forall i :: 0 <= i < |ids| ==> ids[i] == localToGlobal[signalIds[i]]
  {
    seq(|signalIds|, i requires 0 <= i < |signalIds| => localToGlobal[signalIds[i]])
  }

  /** " " and the hexadecimal id, for each id in turn. */
  function HexIds(ids: seq<nat>): string {
    if ids == [] then "" else " " + Hex(ids[0]) + HexIds(ids[1..])
  }

  /** The key CreatePortKey returns. */
  function PortKey(masterName: string, signalIds: seq<nat>, localToGlobal: seq<nat>): string
    requires |signalIds| <= MAX_KEYED_PORTS ==> Mappable(signalIds, localToGlobal)
  {
    if |signalIds| > MAX_KEYED_PORTS then "" else masterName + HexIds(GlobalIds(signalIds, localToGlobal))
  }

  /** Appending one id to the written ids. */
  lemma {:induction false} HexIdsSnoc(ids: seq<nat>, id: nat)
    ensures HexIds(ids + [id]) == HexIds(ids) + " " + Hex(id)
    decreases |ids|
  {
    if ids != [] {
      assert (ids + [id])[1..] == ids[1..] + [id];
      HexIdsSnoc(ids[1..], id);
    } else {
      assert HexIds([id][1..]) == "";
    }
  }

  /**
   * CreatePortKey: "" for an instance with more than MAX_KEYED_PORTS
   * signals, otherwise the master name and, per signal, a space and the
   * signal's global net id in hexadecimal.
   */
  method CreatePortKey(masterName: string, signalIds: seq<nat>, localToGlobal: seq<nat>) returns (key: string)
    requires |signalIds| <= MAX_KEYED_PORTS ==> Mappable(signalIds, localToGlobal)
    ensures key == PortKey(masterName, signalIds, localToGlobal)
  {
    if |signalIds| > MAX_KEYED_PORTS {
      return "";
    }
    ghost var ids := GlobalIds(signalIds, localToGlobal);
    key := masterName;
    var i := 0;
    while i < |signalIds|
      invariant 0 <= i <= |signalIds|
      invariant key == masterName + HexIds(ids[..i])
    {
      HexIdsSnoc(ids[..i], ids[i]);
      assert ids[..i + 1] == ids[..i] + [ids[i]];
      key := key + " " + Hex(localToGlobal[signalIds[i]]);
      i := i + 1;
    }
    assert ids[..i] == ids;
  }

  /** The hexadecimal word of each id. */
  function HexWords(ids: seq<nat>): (words: seq<string>)
    ensures |words| == |ids|
    ensures forall i :: 0 <= i < |ids| ==> words[i] == Hex(ids[i])
  {
    if ids == [] then [] else [Hex(ids[0])] + HexWords(ids[1..])
  }

  /** The written ids are the words of a space-joined list. */
  lemma {:induction false} HexIdsJoin(head: string, ids: seq<nat>)
    ensures head + HexIds(ids) == Join(" ", [head] + HexWords(ids))
    decreases |ids|
  {
    if ids != [] {
      var words := HexWords(ids);
      HexIdsJoin(Hex(ids[0]), ids[1..]);
      assert Hex(ids[0]) + HexIds(ids[1..]) == Join(" ", words);
      JoinCons(head, words, " ");
      calc {
        head + HexIds(ids);
        head + (" " + Hex(ids[0]) + HexIds(ids[1..]));
        { AppendAssoc(head, " ", Hex(ids[0]) + HexIds(ids[1..])); }
        head + " " + Join(" ", words);
      }
    }
  }

  /**
   * A key with no space in the master name reads back: splitting it at
   * spaces gives the master name and then one hexadecimal word per port,
   * whose value is that port's global net id.
   */
  lemma PortKeyReadsBack(masterName: string, signalIds: seq<nat>, localToGlobal: seq<nat>)
    requires |signalIds| <= MAX_KEYED_PORTS && Mappable(signalIds, localToGlobal)
    requires ' ' !in masterName
    ensures var words := SplitOn(PortKey(masterName, signalIds, localToGlobal), ' ');
      && |words| == |signalIds| + 1
      && words[0] == masterName
      && forall i :: 1 <= i < |words| ==>
           (forall j :: 0 <= j < |words[i]| ==> IsHexDigit(words[i][j])) &&
           HexValue(words[i]) == localToGlobal[signalIds[i - 1]]
  {
    var ids := GlobalIds(signalIds, localToGlobal);
    var hexes := HexWords(ids);
    HexIdsJoin(masterName, ids);
    forall i | 0 <= i < |[masterName] + hexes| ensures ' ' !in ([masterName] + hexes)[i] {
      if i > 0 {
        assert ([masterName] + hexes)[i] == Hex(ids[i - 1]);
      }
    }
    SplitOnJoin([masterName] + hexes, ' ');
  }

  /** Instances of one master whose ports land on the same global nets get the same key. */
  lemma SameNetsSameKey(masterName: string, a: seq<nat>, mapA: seq<nat>, b: seq<nat>, mapB: seq<nat>)
    requires Mappable(a, mapA) && Mappable(b, mapB)
    requires GlobalIds(a, mapA) == GlobalIds(b, mapB)
    ensures PortKey(masterName, a, mapA) == PortKey(masterName, b, mapB)
  {
  }

  /**
   * Equal keys (for master names without spaces) mean the same master and
   * the same global nets, port by port.
   */
  lemma SameKeySameNets(masterA: string, a: seq<nat>, mapA: seq<nat>, masterB: string, b: seq<nat>, mapB: seq<nat>)
    requires |a| <= MAX_KEYED_PORTS && Mappable(a, mapA) && ' ' !in masterA
    requires |b| <= MAX_KEYED_PORTS && Mappable(b, mapB) && ' ' !in masterB
    requires PortKey(masterA, a, mapA) == PortKey(masterB, b, mapB)
    ensures masterA == masterB && GlobalIds(a, mapA) == GlobalIds(b, mapB)
  {
    PortKeyReadsBack(masterA, a, mapA);
    PortKeyReadsBack(masterB, b, mapB);
    var words := SplitOn(PortKey(masterA, a, mapA), ' ');
    forall i | 0 <= i < |a| ensures GlobalIds(a, mapA)[i] == GlobalIds(b, mapB)[i] {
      assert HexValue(words[i + 1]) == mapA[a[i]] == mapB[b[i]];
    }
  }
}
