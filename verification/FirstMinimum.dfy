/** The scan every queue uses to save its next event: the first entry with the lowest cycle, where the
    cycle UINT64_MAX stands for "not eligible". */
module FirstMinimum {

  const NEVER := 0xFFFF_FFFF_FFFF_FFFF

  datatype Found = Nothing | At(index: nat, cycle: nat)

  ghost predicate IsFirst(keys: seq<nat>, f: Found) {
    match f
    case Nothing => forall j :: 0 <= j < |keys| ==> keys[j] >= NEVER
    case At(i, c) =>
      && i < |keys| && keys[i] == c < NEVER
      && (forall j :: 0 <= j < |keys| ==> keys[j] >= c)
      && (forall j :: 0 <= j < i ==> keys[j] > c)
  }

  function FirstMin(keys: seq<nat>): (f: Found)
    ensures f.At? ==> f.index < |keys| && f.cycle < NEVER
  {
    if keys == [] then Nothing else
    Better(FirstMin(keys[..|keys| - 1]), |keys| - 1, keys[|keys| - 1])
  }

  /** One turn of the scan: a later entry wins only with a strictly lower cycle. */
  function Better(f: Found, i: nat, key: nat): Found {
    if key < (if f.At? then f.cycle else NEVER) then At(i, key) else f
  }

  /** A saved cycle below NEVER names the first minimum a full scan would find; NEVER means there is none. */
  ghost predicate Saved(cycle: nat, index: nat, keys: seq<nat>) {
    match FirstMin(keys)
    case At(i, c) => cycle == c && index == i
    case Nothing => cycle == NEVER
  }

  lemma FirstMinStep(keys: seq<nat>, i: nat)
    requires i < |keys|
    ensures FirstMin(keys[..i + 1]) == Better(FirstMin(keys[..i]), i, keys[i])
  {
    assert keys[..i + 1][..i] == keys[..i];
  }

  /** The scan finds the first minimum. */
  lemma {:induction false} FirstMinIsFirst(keys: seq<nat>)
    ensures IsFirst(keys, FirstMin(keys))
  {
    if keys != [] {
      FirstMinIsFirst(keys[..|keys| - 1]);
    }
  }

  lemma FirstIsUnique(keys: seq<nat>, f: Found)
    requires IsFirst(keys, f)
    ensures f == FirstMin(keys)
  {
    FirstMinIsFirst(keys);
    var g := FirstMin(keys);
    if f.At? && g.At? {
      assert keys[f.index] >= g.cycle && keys[g.index] >= f.cycle;
    }
  }
}
