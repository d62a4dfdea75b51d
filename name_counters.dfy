/** The disambiguation rule of the file-input handler, as functions on the counter table
    (`existingNames`, persisted under the key "fileNames"): one file name at a time, and a
    whole selection of files in order. */
module NameCounters {
  import opened DisplayNames

  /** From an original file name to the next suffix to show for it. */
  type Counters = map<string, int>

  /** The counter the handler reads for a name. An absent key reads as undefined, which is
      falsy like 0, so both count as "not seen yet". */
  function Counter(m: Counters, name: string): (c: int)
    ensures c == 0 <==> name !in m || m[name] == 0
    ensures name in m ==> c == m[name]
  {
    if name in m then m[name] else 0
  }

  /** The name shown for one file, and the counter table after it. */
  datatype Registration = Registration(display: string, counters: Counters)

  /** One iteration of the loop over the selected files. The counter is keyed by the
      original file name, never by the label shown. */
  function Register(m: Counters, name: string): (r: Registration)
    ensures name in r.counters && r.counters[name] == Counter(m, name) + 1
  {
    if name in m && m[name] != 0 then
      var count := m[name];
      Registration(Disambiguate(name, count), m[name := count + 1])
    else
      Registration(name, m[name := 1])
  }

  /** A name whose counter is falsy is shown as it is, one whose counter is c is shown as
      `name (c)`; either way its counter becomes one more than it read, and no other entry
      of the table changes. */
  lemma RegisterSpec(m: Counters, name: string)
    ensures Register(m, name).display == Label(name, Counter(m, name))
    ensures Register(m, name).display == name <==> Counter(m, name) == 0
    ensures Register(m, name).counters.Keys == m.Keys + {name}
    ensures Register(m, name).counters[name] == Counter(m, name) + 1
    ensures forall k :: k in m && k != name ==> Register(m, name).counters[k] == m[k]
  {
  }

  /** The names shown for one selection of files, and the counter table after the loop. */
  datatype Batch = Batch(displayed: seq<string>, counters: Counters)

  /** The whole loop: the files are registered in order, each against the table left by
      the ones before it. */
  function RegisterAll(m: Counters, names: seq<string>): (b: Batch)
    ensures |b.displayed| == |names|
    decreases |names|
  {
    if names == [] then
      Batch([], m)
    else
      var before := RegisterAll(m, names[..|names| - 1]);
      var last := Register(before.counters, names[|names| - 1]);
      Batch(before.displayed + [last.display], last.counters)
  }

  /** A batch one file longer: the extra file is registered against the table the shorter
      batch left. */
  lemma RegisterAllStep(m: Counters, names: seq<string>, i: nat, before: Batch, last: Registration)
    requires i < |names|
    requires before == RegisterAll(m, names[..i])
    requires last == Register(before.counters, names[i])
    ensures RegisterAll(m, names[..i + 1]) == Batch(before.displayed + [last.display], last.counters)
  {
    assert names[..i + 1][..i] == names[..i];
  }

  /** After a batch each name's counter has advanced by the number of times it was selected;
      the table gains exactly the selected names as keys, and a name that was not selected
      keeps its entry. */
  lemma {:induction false} RegisterAllCounters(m: Counters, names: seq<string>, x: string)
    ensures Counter(RegisterAll(m, names).counters, x) == Counter(m, x) + multiset(names)[x]
    ensures x in RegisterAll(m, names).counters <==> x in m || x in names
    ensures x !in names && x in m ==> RegisterAll(m, names).counters[x] == m[x]
    decreases |names|
  {
    if names != [] {
      var init := names[..|names| - 1];
      assert names == init + [names[|names| - 1]];
      RegisterAllCounters(m, init, x);
    }
  }

  /** The i-th file of a batch is shown under its own name labelled with the counter reached
      after the files before it. */
  lemma {:induction false} RegisterAllDisplayed(m: Counters, names: seq<string>, i: nat)
    requires i < |names|
    ensures RegisterAll(m, names).displayed[i]
         == Label(names[i], Counter(m, names[i]) + multiset(names[..i])[names[i]])
    decreases |names|
  {
    var init := names[..|names| - 1];
    if i < |names| - 1 {
      assert init[..i] == names[..i];
      RegisterAllDisplayed(m, init, i);
    } else {
      assert init == names[..i];
      RegisterAllCounters(m, init, names[i]);
    }
  }

  /** Within one batch, two selections of the same file name are never shown alike. */
  lemma SameNameDistinctLabels(m: Counters, names: seq<string>, i: nat, j: nat)
    requires i < j < |names| && names[i] == names[j]
    ensures RegisterAll(m, names).displayed[i] != RegisterAll(m, names).displayed[j]
  {
    var x := names[i];
    RegisterAllDisplayed(m, names, i);
    RegisterAllDisplayed(m, names, j);
    OccurrencesGrow(names, i, j);
    var ci := Counter(m, x) + multiset(names[..i])[x];
    var cj := Counter(m, x) + multiset(names[..j])[x];
    if Label(x, ci) == Label(x, cj) {
      LabelInjective(x, ci, cj);
    }
  }

  /** A later prefix of a batch holds strictly more copies of a name it repeats. */
  lemma OccurrencesGrow(names: seq<string>, i: nat, j: nat)
    requires i < j <= |names|
    ensures multiset(names[..j])[names[i]] > multiset(names[..i])[names[i]]
  {
    assert names[..j] == names[..i] + [names[i]] + names[i + 1..j];
  }

  /** A selection of k copies of one file name. */
  function Repeat(name: string, k: nat): (s: seq<string>)
    ensures |s| == k && forall j :: 0 <= j < k ==> s[j] == name
  {
    seq(k, _ => name)
  }

  lemma {:induction false} MultisetOfRepeat(name: string, k: nat)
    ensures multiset(Repeat(name, k))[name] == k
    decreases k
  {
    if k > 0 {
      assert Repeat(name, k) == Repeat(name, k - 1) + [name];
      MultisetOfRepeat(name, k - 1);
    }
  }

  /** The j-th of k imports of the same name is labelled with its counter advanced by j. */
  lemma RepeatedImportAt(m: Counters, name: string, k: nat, j: nat)
    requires j < k
    ensures RegisterAll(m, Repeat(name, k)).displayed[j] == Label(name, Counter(m, name) + j)
  {
    RegisterAllDisplayed(m, Repeat(name, k), j);
    assert Repeat(name, k)[..j] == Repeat(name, j);
    MultisetOfRepeat(name, j);
  }

  /** k imports of the same name continue its suffix sequence from the counter it had,
      and leave the counter k further on. */
  lemma RepeatedImport(m: Counters, name: string, k: nat)
    ensures forall j :: 0 <= j < k ==>
      RegisterAll(m, Repeat(name, k)).displayed[j] == Label(name, Counter(m, name) + j)
    ensures Counter(RegisterAll(m, Repeat(name, k)).counters, name) == Counter(m, name) + k
  {
    forall j | 0 <= j < k
      ensures RegisterAll(m, Repeat(name, k)).displayed[j] == Label(name, Counter(m, name) + j)
    {
      RepeatedImportAt(m, name, k, j);
    }
    RegisterAllCounters(m, Repeat(name, k), name);
    MultisetOfRepeat(name, k);
  }

  /** From an empty table, k copies of a name are shown as `name`, `name (1)`, ...,
      `name (k-1)`, and its counter ends at k. */
  lemma RepeatedImportFromEmpty(name: string, k: nat)
    requires k > 0
    ensures RegisterAll(map[], Repeat(name, k)).displayed[0] == name
    ensures forall j :: 1 <= j < k ==>
      RegisterAll(map[], Repeat(name, k)).displayed[j] == Disambiguate(name, j)
    ensures RegisterAll(map[], Repeat(name, k)).counters[name] == k
  {
    RepeatedImport(map[], name, k);
    RegisterAllCounters(map[], Repeat(name, k), name);
  }

  /** Labels are unique per file name only: a file whose own name looks like a label
      collides with it. */
  lemma LabelsMayCollideAcrossNames()
    ensures RegisterAll(map[], ["a", "a", "a (1)"]).displayed == ["a", "a (1)", "a (1)"]
  {
    var names := ["a", "a", "a (1)"];
    assert names[..2][..1] == ["a"];
    assert names[..2] == ["a", "a"];
    assert ["a"][..0] == [];
    var first := RegisterAll(map[], ["a"]);
    assert first == Batch(["a"], map["a" := 1]);
    var second := RegisterAll(map[], ["a", "a"]);
    assert ["a", "a"][..1] == ["a"];
    assert IntToString(1) == "1";
    assert Disambiguate("a", 1) == "a (1)";
    assert second == Batch(["a", "a (1)"], map["a" := 2]);
    assert "a (1)" != "a";
    assert Register(second.counters, "a (1)").display == "a (1)";
  }

  /** Removing the entry shown under the plain name deletes that name's counter, so the
      next import of it is shown plain again and restarts at 1. */
  lemma RemovingPlainEntryResets(m: Counters, name: string)
    ensures Register(m - {name}, name).display == name
    ensures Register(m - {name}, name).counters[name] == 1
  {
  }

  /** Removing an entry shown as `name (n)` deletes a key that is not `name`, so the next
      import of `name` continues its suffix sequence unchanged. */
  lemma RemovingLabelledEntryKeepsCounter(m: Counters, name: string, n: int)
    ensures Counter(m - {Disambiguate(name, n)}, name) == Counter(m, name)
    ensures Register(m - {Disambiguate(name, n)}, name).display == Register(m, name).display
  {
  }
}
