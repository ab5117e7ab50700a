/** What a host expects of an FTL: a flat array of sectors. */
module FlatDisk {
  import opened Nand

  /** The array with data from sector p on. */
  function Overwrite(disk: seq<Sector>, p: nat, data: seq<Sector>): (r: seq<Sector>)
    requires p + |data| <= |disk|
    ensures |r| == |disk|
    ensures forall q :: 0 <= q < |disk| ==> r[q] == if p <= q < p + |data| then data[q - p] else disk[q]
  {
    disk[..p] + data + disk[p + |data|..]
  }

  lemma OverwriteOn(disk: seq<Sector>, p: nat, data: seq<Sector>, n: nat, m: nat)
    requires p + |data| <= |disk| && n <= m <= |data|
    ensures Overwrite(Overwrite(disk, p, data[..n]), p + n, data[n..m]) == Overwrite(disk, p, data[..m])
  {
  }

  datatype Cmd = Read(lba: nat, n: nat) | Write(lba: nat, data: seq<Sector>)

  predicate InRange(c: Cmd, size: nat) {
    match c
    case Read(lba, n) => lba + n <= size
    case Write(lba, data) => lba + |data| <= size
  }

  /** What a flat array of sectors becomes, and what its reads return. */
  function RunFlat(disk: seq<Sector>, cmds: seq<Cmd>): (r: (seq<Sector>, seq<seq<Sector>>))
    requires forall i :: 0 <= i < |cmds| ==> InRange(cmds[i], |disk|)
    ensures |r.0| == |disk|
  {
    if cmds == [] then (disk, [])
    else
      var (d, outs) := RunFlat(disk, cmds[..|cmds| - 1]);
      assert InRange(cmds[|cmds| - 1], |disk|);
      match cmds[|cmds| - 1]
      case Read(lba, n) => (d, outs + [d[lba..lba + n]])
      case Write(lba, data) => (Overwrite(d, lba, data), outs)
  }

  lemma RunFlatNone(disk: seq<Sector>)
    ensures RunFlat(disk, []) == (disk, [])
  {
  }

  /** One command more. */
  lemma RunFlatOn(disk: seq<Sector>, cmds: seq<Cmd>, i: nat)
    requires i < |cmds| && forall k :: 0 <= k < |cmds| ==> InRange(cmds[k], |disk|)
    ensures var d := RunFlat(disk, cmds[..i]).0;
            |d| == |disk| && InRange(cmds[i], |d|)
    ensures var (d, outs) := RunFlat(disk, cmds[..i]);
            RunFlat(disk, cmds[..i + 1]) ==
              match cmds[i]
              case Read(lba, n) => (d, outs + [d[lba..lba + n]])
              case Write(lba, data) => (Overwrite(d, lba, data), outs)
  {
    hide Overwrite;
    assert cmds[..i + 1][..i] == cmds[..i] && cmds[..i + 1][i] == cmds[i];
  }
}
