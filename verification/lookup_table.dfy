/** The lookup idiom the scripts use for their fixed tables: the attributes
    start as None (or a default) and a sequence of `if name == ...:` blocks, each
    compared in turn, assigns them whenever its name matches. */
module LookupTable {
  import opened Base

  /** One name a block compares against and the value the block assigns. A block
      `if sta == a or sta == b:` is the pair of entries for a and b with the
      same value. */
  datatype Keyed<T> = Keyed(name: string, value: T)

  /** Applying the blocks from `k` on: every entry naming `key` overwrites the
      value; `acc` is what the earlier blocks left. */
  function Scan<T>(es: seq<Keyed<T>>, key: string, k: nat, acc: Option<T>): Option<T>
    requires k <= |es|
    decreases |es| - k
  {
    if k == |es| then acc
    else Scan(es, key, k + 1, if es[k].name == key then Some(es[k].value) else acc)
  }

  /** The whole sequence of blocks, starting from None. */
  function Lookup<T>(es: seq<Keyed<T>>, key: string): Option<T>
  {
    Scan(es, key, 0, None)
  }

  /** No name is compared twice. */
  predicate Distinct<T>(es: seq<Keyed<T>>) {
    forall i, j :: 0 <= i < j < |es| ==> es[i].name != es[j].name
  }

  /** Entries lo..hi-1 share no name with any later entry. */
  predicate DistinctFrom<T>(es: seq<Keyed<T>>, lo: nat, hi: nat) {
    forall i, j :: lo <= i < hi && i < j < |es| ==> es[i].name != es[j].name
  }

  /** Scanning from `k` with a name no later entry lists keeps `acc`; a name
      at entry `j >= k` and at no later one ends with entry j's value. */
  lemma {:induction false} ScanResult<T>(es: seq<Keyed<T>>, key: string, k: nat, acc: Option<T>)
    requires k <= |es|
    ensures (forall m :: k <= m < |es| ==> es[m].name != key) ==> Scan(es, key, k, acc) == acc
    ensures forall j :: k <= j < |es| && es[j].name == key
              && (forall m :: j < m < |es| ==> es[m].name != key)
              ==> Scan(es, key, k, acc) == Some(es[j].value)
    decreases |es| - k
  {
    if k < |es| {
      var acc' := if es[k].name == key then Some(es[k].value) else acc;
      ScanResult(es, key, k + 1, acc');
    }
  }

  /** The lookup against its reference: an unknown name gives None, and with
      distinct names a listed name gets its own entry's value, whatever the
      order of the blocks. */
  lemma LookupSpec<T>(es: seq<Keyed<T>>, key: string)
    ensures (forall m :: 0 <= m < |es| ==> es[m].name != key) ==> Lookup(es, key) == None
    ensures Distinct(es) ==> forall j :: 0 <= j < |es| && es[j].name == key ==> Lookup(es, key) == Some(es[j].value)
  {
    ScanResult(es, key, 0, None);
  }
}
