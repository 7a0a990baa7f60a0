/**
 The channel table that `read_channels` builds: a Python dict from channel
 name to its list of raw value tokens. A dict remembers its keys in the order
 they were first inserted, and assigning to an existing key replaces its value
 but keeps its position.
 */
module Tables {

  /** One parsed line: the channel name and its value tokens. */
  datatype Entry = Entry(name: string, values: seq<string>)

  /** An insertion-ordered dict: `keys` in insertion order, `entries` the mapping. */
  datatype Table = Table(keys: seq<string>, entries: map<string, seq<string>>)

  /** `keys` lists every key of `entries` exactly once. */
  ghost predicate Valid(t: Table)
  {
    && (forall a, b :: 0 <= a < b < |t.keys| ==> t.keys[a] != t.keys[b])
    && (forall n :: n in t.entries <==> n in t.keys)
  }

  /** The empty dict `{}`. */
  function Empty(): (t: Table)
    ensures Valid(t) && t.keys == [] && t.entries == map[]
  {
    Table([], map[])
  }

  /** `t[name] = values` on an insertion-ordered dict. */
  function Put(t: Table, name: string, values: seq<string>): (r: Table)
    requires Valid(t)
    ensures Valid(r)
  {
    Table(if name in t.entries then t.keys else t.keys + [name], t.entries[name := values])
  }

  /**
   After `t[name] = values` the key maps to `values`, every other key keeps
   its value, keys already present keep their position, and a new key goes last.
   */
  lemma PutEffect(t: Table, name: string, values: seq<string>)
    requires Valid(t)
    ensures var r := Put(t, name, values);
      && name in r.entries && r.entries[name] == values
      && (forall n :: n != name ==> (n in r.entries <==> n in t.entries))
      && (forall n :: n != name && n in t.entries ==> r.entries[n] == t.entries[n])
      && |t.keys| <= |r.keys| && r.keys[..|t.keys|] == t.keys
      && (name in t.entries ==> r.keys == t.keys)
      && (name !in t.entries ==> r.keys == t.keys + [name])
  {
  }

  /** The names of the entries, in order. */
  function Names(es: seq<Entry>): (r: seq<string>)
    ensures |r| == |es|
    ensures forall k :: 0 <= k < |es| ==> r[k] == es[k].name
  {
    seq(|es|, k requires 0 <= k < |es| => es[k].name)
  }

  /** The table obtained by assigning the entries one after another into an empty dict. */
  function Build(es: seq<Entry>): (t: Table)
    ensures Valid(t)
    ensures |t.keys| <= |es|
    decreases |es|
  {
    if es == [] then Empty()
    else
      var last := es[|es| - 1];
      Put(Build(es[..|es| - 1]), last.name, last.values)
  }

  /** The position of the first occurrence of `n` in `xs`. */
  function FirstIndex(xs: seq<string>, n: string): (i: nat)
    requires n in xs
    ensures i < |xs| && xs[i] == n && n !in xs[..i]
  {
    if xs[0] == n then 0
    else
      var j := FirstIndex(xs[1..], n);
      assert xs[..1 + j] == [xs[0]] + xs[1..][..j];
      1 + j
  }

  lemma {:induction false} FirstIndexAppend(xs: seq<string>, y: string, n: string)
    requires n in xs
    ensures FirstIndex(xs + [y], n) == FirstIndex(xs, n)
    decreases |xs|
  {
    if xs[0] != n {
      assert (xs + [y])[1..] == xs[1..] + [y];
      FirstIndexAppend(xs[1..], y, n);
    }
  }

  /** Building from the entries plus one more is putting that one into the table built so far. */
  lemma BuildSnoc(es: seq<Entry>, e: Entry)
    ensures Build(es + [e]) == Put(Build(es), e.name, e.values)
  {
    assert (es + [e])[..|es|] == es;
  }

  lemma NamesSnoc(es: seq<Entry>)
    requires es != []
    ensures Names(es) == Names(es[..|es| - 1]) + [es[|es| - 1].name]
  {
  }

  /** The keys of the built table are exactly the names of the entries. */
  lemma {:induction false} BuildKeys(es: seq<Entry>)
    ensures forall n :: n in Build(es).entries <==> n in Names(es)
    decreases |es|
  {
    if es != [] {
      var init, last := es[..|es| - 1], es[|es| - 1];
      BuildKeys(init);
      NamesSnoc(es);
      var names, prev := Names(es), Names(init);
      forall n
        ensures n in Build(es).entries <==> n in names
      {
        assert n in names <==> n in prev || n == last.name;
      }
    }
  }

  /** Last writer wins: an entry that no later entry renames gives the stored value of its name. */
  lemma {:induction false} BuildLastWins(es: seq<Entry>, k: nat)
    requires k < |es|
    requires forall j :: k < j < |es| ==> es[j].name != es[k].name
    ensures es[k].name in Build(es).entries
    ensures Build(es).entries[es[k].name] == es[k].values
    decreases |es|
  {
    var init, last := es[..|es| - 1], es[|es| - 1];
    var t, r := Build(init), Build(es);
    assert r == Put(t, last.name, last.values);
    if k < |init| {
      assert init[k] == es[k];
      BuildLastWins(init, k);
    }
  }

  /** Every key occurs among `names`, and the keys are in the order of their first occurrences there. */
  ghost predicate InFirstOccurrenceOrder(keys: seq<string>, names: seq<string>)
  {
    && (forall a :: 0 <= a < |keys| ==> keys[a] in names)
    && (forall a, b :: 0 <= a < b < |keys| ==> FirstIndex(names, keys[a]) < FirstIndex(names, keys[b]))
  }

  /** A name appended after the others does not disturb the order of the first occurrences. */
  lemma OrderSnoc(keys: seq<string>, names: seq<string>, x: string)
    requires InFirstOccurrenceOrder(keys, names)
    ensures InFirstOccurrenceOrder(keys, names + [x])
    ensures x !in names ==> InFirstOccurrenceOrder(keys + [x], names + [x])
  {
    forall a | 0 <= a < |keys|
      ensures FirstIndex(names + [x], keys[a]) == FirstIndex(names, keys[a])
    {
      FirstIndexAppend(names, x, keys[a]);
    }
    if x !in names {
      assert FirstIndex(names + [x], x) == |names|;
      var ks := keys + [x];
      forall a, b | 0 <= a < b < |ks|
        ensures FirstIndex(names + [x], ks[a]) < FirstIndex(names + [x], ks[b])
      {
        if b == |keys| {
          assert ks[a] == keys[a];
        }
      }
    }
  }

  /** The keys are in the order in which their names first occur among the entries. */
  lemma {:induction false} BuildOrder(es: seq<Entry>)
    ensures InFirstOccurrenceOrder(Build(es).keys, Names(es))
    decreases |es|
  {
    if es != [] {
      var init, last := es[..|es| - 1], es[|es| - 1];
      BuildOrder(init);
      BuildKeys(init);
      NamesSnoc(es);
      var t := Build(init);
      OrderSnoc(t.keys, Names(init), last.name);
    }
  }
}
