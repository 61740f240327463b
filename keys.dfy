/** Keys, key combinations, and the "+"-joined description of a combination. */
module Keys {
  import opened Text

  /** A key as sent to NVDA Remote: scan code, virtual-key code and the extended flag.
      `name` stands for the Name member the description helpers read; Key.cs declares
      no such member, so the model carries it as an uninterpreted field. */
  datatype Key = Key(scanCode: int, keyCode: int, extended: bool, name: string)

  /** The fixtures the driver uses. */
  const Nvda: Key := Key(82, 45, true, "Nvda")
  const Control: Key := Key(29, 162, false, "Control")
  const Q: Key := Key(16, 81, false, "Q")

  /** An ordered, growable list of keys; enumeration yields `keys` in stored order. */
  class KeyCombination {
    var keys: seq<Key>

    /** The empty combination. */
    constructor ()
      ensures keys == []
    {
      keys := [];
    }

    /** A combination holding the given keys, in order. */
    constructor FromKeys(ks: seq<Key>)
      ensures keys == ks
    {
      keys := [];
      keys := keys + ks;
    }

    /** Appends a key after the ones already there. */
    method Add(k: Key)
      modifies this
      ensures keys == old(keys) + [k]
    {
      keys := keys + [k];
    }
  }

  /** The key names, in the combination's order. */
  function Names(ks: seq<Key>): (r: seq<string>)
    ensures |r| == |ks|
    ensures forall i | 0 <= i < |ks| :: r[i] == ks[i].name
  {
    seq(|ks|, i requires 0 <= i < |ks| => ks[i].name)
  }

  /** GetDescription: the key names joined with "+". */
  function Description(ks: seq<Key>): string {
    Join("+", Names(ks))
  }

  /** No keys give the empty string; one key gives its bare name. */
  lemma DescriptionOfShort(ks: seq<Key>)
    ensures ks == [] ==> Description(ks) == ""
    ensures |ks| == 1 ==> Description(ks) == ks[0].name
  {
  }

  /** When no name holds a '+', splitting the description at '+' gives back the names in
      order, so the description determines them. */
  lemma DescriptionSplits(ks: seq<Key>)
    requires |ks| >= 1
    requires forall i | 0 <= i < |ks| :: '+' !in ks[i].name
    ensures Split(Description(ks), '+') == Names(ks)
  {
    SplitJoin(Names(ks), '+');
  }

  /** Adding a key appends "+" and its name to a non-empty description. */
  lemma {:induction false} DescriptionOfAdd(ks: seq<Key>, k: Key)
    requires |ks| >= 1
    ensures Description(ks + [k]) == Description(ks) + "+" + k.name
  {
    assert Names(ks + [k]) == Names(ks) + [k.name];
    JoinAppend("+", Names(ks), k.name);
  }
}
