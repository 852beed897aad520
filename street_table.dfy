/**
 * The streets CSV table: its header line, and the key map that both
 * `getStreetsDictFromCSV` methods build with a dict comprehension: one
 * entry per normalised street name, and for a name that
 * several rows share, the row that comes last (a later key assignment
 * replaces an earlier one). A row whose key cannot be computed raises, and
 * the whole comprehension with it.
 *
 * The map is modelled by the position of the row that each key ends up
 * with, so that it serves rows of any kind.
 */
module StreetTable {
  import opened Wrappers

  /** `Street.getCSVHeader()`, in both copies of the class. */
  const StreetsHeader := "location_id,name,geometry"

  /**
   * The key of each row, `None` where computing it raises, in row order;
   * the result maps every key to the position of the last row with it.
   */
  function LastIndex(keys: seq<Option<string>>): (m: Option<map<string, nat>>)
    ensures m.Some? ==> forall k :: k in m.value ==> m.value[k] < |keys|
    decreases |keys|
  {
    if keys == [] then Some(map[])
    else
      match LastIndex(keys[..|keys| - 1])
      case None => None
      case Some(m) =>
        match keys[|keys| - 1]
        case None => None
        case Some(k) => Some(m[k := |keys| - 1])
  }

  /** Every key can be computed. */
  predicate AllKeys(keys: seq<Option<string>>) {
    forall i :: 0 <= i < |keys| ==> keys[i].Some?
  }

  /** The comprehension raises exactly when some row's key does. */
  lemma {:induction false} LastIndexFails(keys: seq<Option<string>>)
    ensures LastIndex(keys).Some? <==> AllKeys(keys)
    decreases |keys|
  {
    if keys != [] {
      var init := keys[..|keys| - 1];
      LastIndexFails(init);
      assert forall i :: 0 <= i < |init| ==> init[i] == keys[i];
    }
  }

  /** The keys of the map are exactly the keys of the rows. */
  lemma {:induction false} LastIndexKeys(keys: seq<Option<string>>, k: string)
    requires LastIndex(keys).Some?
    ensures k in LastIndex(keys).value <==> exists i :: 0 <= i < |keys| && keys[i] == Some(k)
    decreases |keys|
  {
    if keys != [] {
      var init := keys[..|keys| - 1];
      LastIndexKeys(init, k);
      assert forall i :: 0 <= i < |init| ==> init[i] == keys[i];
      if k in LastIndex(keys).value && keys[|keys| - 1] != Some(k) {
        var i :| 0 <= i < |init| && init[i] == Some(k);
        assert keys[i] == Some(k);
      }
    }
  }

  /** Each key is mapped to the last row that has it: last wins. */
  lemma {:induction false} LastIndexLast(keys: seq<Option<string>>, k: string)
    requires LastIndex(keys).Some? && k in LastIndex(keys).value
    ensures var i := LastIndex(keys).value[k];
      i < |keys| && keys[i] == Some(k)
      && forall j :: i < j < |keys| ==> keys[j] != Some(k)
    decreases |keys|
  {
    var init := keys[..|keys| - 1];
    if keys[|keys| - 1] != Some(k) {
      LastIndexLast(init, k);
    }
  }
}
