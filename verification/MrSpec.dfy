// What a MapReduce application is, and what the right output for its intermediate pairs is.

module MrSpec {
  import opened Collections
  import opened Grouping

  datatype KeyValue = KeyValue(key: string, value: string)

  // One line of output: the key, and what the application's reduce made of its values.
  datatype Line = Line(key: string, output: string)

  // The pairs a map call emits are fixed by its input, their order is not. hash stands for the
  // program's hash of a key, a number that is never negative.
  datatype App = App(
    emits: (string, string) -> multiset<KeyValue>,
    reducef: (string, seq<string>) -> string,
    hash: string -> nat)

  // The application's reduce ignores the order of the values.
  ghost predicate OrderBlind(app: App) {
    forall k, vs, ws :: multiset(vs) == multiset(ws) ==> app.reducef(k, vs) == app.reducef(k, ws)
  }

  // vs are the values of a key, each as often as it was emitted.
  ghost predicate AreValues(vs: seq<string>, kvs: multiset<KeyValue>, key: string) {
    forall v :: multiset(vs)[v] == kvs[KeyValue(key, v)]
  }

  // A line for a key of kvs, made from exactly that key's values.
  ghost predicate GoodLine(line: Line, kvs: multiset<KeyValue>, app: App) {
    exists vs :: vs != [] && AreValues(vs, kvs, line.key) && line.output == app.reducef(line.key, vs)
  }

  ghost predicate DistinctKeys(lines: seq<Line>) {
    forall i, j :: 0 <= i < j < |lines| ==> lines[i].key != lines[j].key
  }

  ghost predicate HasKey(lines: seq<Line>, key: string) {
    exists i :: 0 <= i < |lines| && lines[i].key == key
  }

  // The right output for kvs: one good line for each key, and no others.
  ghost predicate IsOutput(lines: seq<Line>, kvs: multiset<KeyValue>, app: App) {
    && DistinctKeys(lines)
    && (forall kv :: kv in kvs ==> HasKey(lines, kv.key))
    && (forall i :: 0 <= i < |lines| ==> GoodLine(lines[i], kvs, app))
  }

  lemma GoodLineUnique(a: Line, b: Line, kvs: multiset<KeyValue>, app: App)
    requires OrderBlind(app) && GoodLine(a, kvs, app) && GoodLine(b, kvs, app) && a.key == b.key
    ensures a == b
  {
    var vs :| vs != [] && AreValues(vs, kvs, a.key) && a.output == app.reducef(a.key, vs);
    var ws :| ws != [] && AreValues(ws, kvs, b.key) && b.output == app.reducef(b.key, ws);
    assert multiset(vs) == multiset(ws);
  }

  lemma OutputHas(l1: seq<Line>, l2: seq<Line>, kvs: multiset<KeyValue>, app: App, line: Line)
    requires OrderBlind(app) && IsOutput(l1, kvs, app) && IsOutput(l2, kvs, app) && line in l1
    ensures line in l2
  {
    var vs :| vs != [] && AreValues(vs, kvs, line.key) && line.output == app.reducef(line.key, vs);
    assert vs[0] in multiset(vs);
    assert KeyValue(line.key, vs[0]) in kvs;
    assert HasKey(l2, line.key);
    var i :| 0 <= i < |l2| && l2[i].key == line.key;
    GoodLineUnique(line, l2[i], kvs, app);
  }

  // For an order-blind application the right output is unique, up to the order of its lines.
  lemma OutputUnique(l1: seq<Line>, l2: seq<Line>, kvs: multiset<KeyValue>, app: App)
    requires OrderBlind(app) && IsOutput(l1, kvs, app) && IsOutput(l2, kvs, app)
    ensures multiset(l1) == multiset(l2)
  {
    forall line ensures multiset(l1)[line] == multiset(l2)[line] {
      DistinctCount(l1, line);
      DistinctCount(l2, line);
      if line in l1 { OutputHas(l1, l2, kvs, app, line); }
      if line in l2 { OutputHas(l2, l1, kvs, app, line); }
    }
  }

  // ----- Values of a key in a sequence of pairs -----

  function KeyOf(kv: KeyValue): string {
    kv.key
  }

  function Values(kvs: seq<KeyValue>): seq<string> {
    seq(|kvs|, i requires 0 <= i < |kvs| => kvs[i].value)
  }

  lemma {:induction false} ValuesCount(kvs: seq<KeyValue>, key: string, v: string)
    requires forall i :: 0 <= i < |kvs| ==> kvs[i].key == key
    ensures multiset(Values(kvs))[v] == multiset(kvs)[KeyValue(key, v)]
  {
    if kvs != [] {
      var n := |kvs| - 1;
      ValuesCount(kvs[..n], key, v);
      assert Values(kvs) == Values(kvs[..n]) + [kvs[n].value];
      assert kvs == kvs[..n] + [kvs[n]];
    }
  }

  // The values of the pairs with one key, in order.
  lemma {:induction false} MembersAreValues(kvs: seq<KeyValue>, key: string)
    ensures AreValues(Values(Members(kvs, KeyOf, key)), multiset(kvs), key)
  {
    var ms := Members(kvs, KeyOf, key);
    MembersHaveKey(kvs, key);
    forall v ensures multiset(Values(ms))[v] == multiset(kvs)[KeyValue(key, v)] {
      ValuesCount(ms, key, v);
      MembersCount(kvs, KeyOf, key, KeyValue(key, v));
    }
  }

  lemma {:induction false} MembersHaveKey(kvs: seq<KeyValue>, key: string)
    ensures forall i :: 0 <= i < |Members(kvs, KeyOf, key)| ==> Members(kvs, KeyOf, key)[i].key == key
  {
    if kvs != [] { MembersHaveKey(kvs[..|kvs| - 1], key); }
  }

  // ----- All the pairs of a list of input files -----

  ghost function Emitted(files: seq<string>, contents: map<string, string>, app: App): multiset<KeyValue>
    requires forall f :: f in files ==> f in contents
  {
    if files == [] then multiset{}
    else Emitted(files[..|files| - 1], contents, app) + app.emits(files[|files| - 1], contents[files[|files| - 1]])
  }

  // One call of the application's map: the emitted pairs, in an order of its choosing.
  method MapF(app: App, file: string, content: string) returns (kva: seq<KeyValue>)
    ensures multiset(kva) == app.emits(file, content)
  {
    kva := [];
    var rest := app.emits(file, content);
    while rest != multiset{}
      invariant multiset(kva) + rest == app.emits(file, content)
      decreases |rest|
    {
      var kv :| kv in rest;
      kva := kva + [kv];
      rest := rest - multiset{kv};
    }
  }
}
