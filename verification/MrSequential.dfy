// The sequential MapReduce program: map every file, sort all the pairs by key, and scan the
// runs of equal keys.

module MrSequential {
  import opened Collections
  import opened Sorting
  import opened MrSpec

  // None when an input file cannot be read, which ends the program.
  method Sequential(files: seq<string>, contents: map<string, string>, app: App) returns (out: Option<seq<Line>>)
    ensures out.Some? <==> forall f :: f in files ==> f in contents
    ensures out.Some? ==> IsOutput(out.value, Emitted(files, contents, app), app)
    ensures out.Some? ==> SortedBy(out.value, LineKey)
  {
    var intermediate: seq<KeyValue> := [];
    for n := 0 to |files|
      invariant forall f :: f in files[..n] ==> f in contents
      invariant multiset(intermediate) == Emitted(files[..n], contents, app)
    {
      assert files[..n + 1][..n] == files[..n];
      if files[n] !in contents {
        assert files[n] in files;
        return None;
      }
      var kva := MapF(app, files[n], contents[files[n]]);
      intermediate := intermediate + kva;
    }
    assert files[..|files|] == files;
    var sorted := SortBy(intermediate, KeyOf);
    var lines := Scan(sorted, app);
    return Some(lines);
  }

  function LineKey(line: Line): string {
    line.key
  }

  // The lines made so far: one for each key among the first i pairs.
  ghost predicate Scanned(lines: seq<Line>, s: seq<KeyValue>, i: nat, app: App)
    requires i <= |s|
  {
    && DistinctKeys(lines)
    && (forall a :: 0 <= a < i ==> HasKey(lines, s[a].key))
    && (forall l :: 0 <= l < |lines| ==> GoodLine(lines[l], multiset(s), app))
    && (forall l :: 0 <= l < |lines| ==> KeyBefore(s, i, lines[l].key))
  }

  ghost predicate KeyBefore(s: seq<KeyValue>, i: nat, key: string)
    requires i <= |s|
  {
    exists a :: 0 <= a < i && s[a].key == key
  }

  // The i/j/k loops: reduce is called once for each run of equal keys.
  method Scan(s: seq<KeyValue>, app: App) returns (lines: seq<Line>)
    requires SortedBy(s, KeyOf)
    ensures IsOutput(lines, multiset(s), app)
    ensures SortedBy(lines, LineKey)
  {
    lines := [];
    var i := 0;
    while i < |s|
      invariant 0 <= i <= |s|
      invariant 0 < i < |s| ==> s[i - 1].key != s[i].key
      invariant Scanned(lines, s, i, app)
      invariant SortedBy(lines, LineKey)
    {
      var j := i + 1;
      while j < |s| && s[j].key == s[i].key
        invariant i < j <= |s|
        invariant forall a :: i <= a < j ==> s[a].key == s[i].key
      {
        j := j + 1;
      }
      var values := RunOf(s, i, j);
      var line := Line(s[i].key, app.reducef(s[i].key, values));
      RunIsKey(s, i, j);
      RunLine(s, i, j, app, line);
      ScanStep(lines, s, i, j, app, line);
      KeysAscend(lines, s, i, app, line);
      lines := lines + [line];
      i := j;
    }
    ScannedAll(lines, s, app);
  }

  lemma ScannedAll(lines: seq<Line>, s: seq<KeyValue>, app: App)
    requires Scanned(lines, s, |s|, app)
    ensures IsOutput(lines, multiset(s), app)
  {
    forall kv | kv in multiset(s) ensures HasKey(lines, kv.key) {
      var a :| 0 <= a < |s| && s[a] == kv;
    }
  }

  // The key of the next run comes after the keys of the lines made so far.
  lemma KeysAscend(lines: seq<Line>, s: seq<KeyValue>, i: nat, app: App, line: Line)
    requires SortedBy(s, KeyOf) && i < |s| && Scanned(lines, s, i, app) && SortedBy(lines, LineKey)
    requires line.key == s[i].key
    ensures SortedBy(lines + [line], LineKey)
  {
    forall l | 0 <= l < |lines| ensures AtMost(LineKey(lines[l]), LineKey(line)) {
      assert KeyBefore(s, i, lines[l].key);
      var a :| 0 <= a < i && s[a].key == lines[l].key;
      assert AtMost(KeyOf(s[a]), KeyOf(s[i]));
    }
  }

  method RunOf(s: seq<KeyValue>, i: nat, j: nat) returns (values: seq<string>)
    requires i <= j <= |s|
    ensures values == Values(s[i..j])
  {
    values := [];
    for k := i to j
      invariant values == Values(s[i..k])
    {
      values := values + [s[k].value];
    }
  }

  lemma ScanStep(lines: seq<Line>, s: seq<KeyValue>, i: nat, j: nat, app: App, line: Line)
    requires i < j <= |s| && Scanned(lines, s, i, app)
    requires line.key == s[i].key && GoodLine(line, multiset(s), app)
    requires forall a :: i <= a < j ==> s[a].key == s[i].key
    requires forall a :: 0 <= a < |s| && s[a].key == s[i].key ==> i <= a < j
    ensures Scanned(lines + [line], s, j, app)
  {
    var more := lines + [line];
    assert forall l :: 0 <= l < |lines| ==> more[l] == lines[l];
    assert more[|lines|] == line;
    forall l | 0 <= l < |lines| ensures lines[l].key != line.key {
      assert KeyBefore(s, i, lines[l].key);
    }
    forall a | 0 <= a < j ensures HasKey(more, s[a].key) {
      if a < i {
        var l :| 0 <= l < |lines| && lines[l].key == s[a].key;
        assert more[l].key == s[a].key;
      } else {
        assert more[|lines|].key == s[a].key;
      }
    }
    forall l | 0 <= l < |more| ensures GoodLine(more[l], multiset(s), app) {
      assert l < |lines| ==> GoodLine(lines[l], multiset(s), app);
    }
    forall l | 0 <= l < |more| ensures KeyBefore(s, j, more[l].key) {
      assert l < |lines| ==> KeyBefore(s, i, lines[l].key);
      assert s[i].key == line.key;
    }
  }

  // In sorted pairs a maximal run holds all the pairs of its key.
  lemma RunIsKey(s: seq<KeyValue>, i: nat, j: nat)
    requires SortedBy(s, KeyOf) && i < j <= |s|
    requires 0 < i ==> s[i - 1].key != s[i].key
    requires forall a :: i <= a < j ==> s[a].key == s[i].key
    requires j < |s| ==> s[j].key != s[i].key
    ensures forall a :: 0 <= a < |s| && s[a].key == s[i].key ==> i <= a < j
  {
    forall a | 0 <= a < |s| && s[a].key == s[i].key ensures i <= a < j {
      if a < i {
        Between(s, a, i - 1, i);
      } else if a >= j {
        Between(s, i, j, a);
      }
    }
  }

  lemma Between(s: seq<KeyValue>, a: nat, b: nat, c: nat)
    requires SortedBy(s, KeyOf) && a <= b <= c < |s| && s[a].key == s[c].key
    ensures s[b].key == s[a].key
  {
    if a < b < c {
      assert AtMost(KeyOf(s[a]), KeyOf(s[b])) && AtMost(KeyOf(s[b]), KeyOf(s[c]));
      AtMostAntisymmetric(s[a].key, s[b].key);
    }
  }

  // The run holds every pair of its key, as often as the whole sequence does.
  lemma RunHasAll(s: seq<KeyValue>, i: nat, j: nat, kv: KeyValue)
    requires i < j <= |s|
    requires forall a :: 0 <= a < |s| && s[a].key == kv.key ==> i <= a < j
    ensures multiset(s[i..j])[kv] == multiset(s)[kv]
  {
    var front, back := s[..i], s[j..];
    assert s == front + (s[i..j] + back);
    assert kv !in front by {
      forall a | 0 <= a < i ensures front[a] != kv { assert front[a] == s[a]; }
    }
    assert kv !in back by {
      forall a | 0 <= a < |back| ensures back[a] != kv { assert back[a] == s[j + a]; }
    }
    assert kv !in multiset(front) && kv !in multiset(back);
  }

  lemma RunValues(s: seq<KeyValue>, i: nat, j: nat)
    requires i < j <= |s|
    requires forall a :: i <= a < j ==> s[a].key == s[i].key
    requires forall a :: 0 <= a < |s| && s[a].key == s[i].key ==> i <= a < j
    ensures AreValues(Values(s[i..j]), multiset(s), s[i].key)
  {
    forall v ensures multiset(Values(s[i..j]))[v] == multiset(s)[KeyValue(s[i].key, v)] {
      ValuesCount(s[i..j], s[i].key, v);
      RunHasAll(s, i, j, KeyValue(s[i].key, v));
    }
  }

  lemma RunLine(s: seq<KeyValue>, i: nat, j: nat, app: App, line: Line)
    requires i < j <= |s|
    requires forall a :: i <= a < j ==> s[a].key == s[i].key
    requires forall a :: 0 <= a < |s| && s[a].key == s[i].key ==> i <= a < j
    requires line == Line(s[i].key, app.reducef(s[i].key, Values(s[i..j])))
    ensures GoodLine(line, multiset(s), app)
  {
    RunValues(s, i, j);
    assert Values(s[i..j]) != [];
  }
}
