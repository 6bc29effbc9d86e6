/** The hash-closure check of check_scrub_hash_closure.py: does any old hash survive a scrub? */
module ScrubClosure {
  import opened Ascii
  import opened JsonText

  /** The hash of a content: 64 hexadecimal digits. */
  ghost predicate IsHash(sha: string -> string) {
    forall content :: |sha(content)| == 64
  }

  datatype File = File(path: string, content: string)

  /** A committed tree: one blob for each path. */
  predicate IsTree(tree: seq<File>) {
    forall i, j :: 0 <= i < j < |tree| ==> tree[i].path != tree[j].path
  }

  /** Parsed JSON; the keys of an object do not matter here. */
  datatype Json = Object(values: seq<Json>) | Array(items: seq<Json>) | Str(s: string) | Scalar

  // ---------- text ----------

  /** re.finditer of a literal: from the left, without overlaps. */
  function Scan(pattern: string, text: string, i: nat): (offsets: seq<nat>)
    requires pattern != []
    decreases |text| - i
  {
    if i + |pattern| > |text| then []
    else if text[i..i + |pattern|] == pattern then [i] + Scan(pattern, text, i + |pattern|)
    else Scan(pattern, text, i + 1)
  }

  /** No proper end of the pattern is also its beginning, so occurrences cannot overlap. */
  predicate Unbordered(pattern: string) {
    forall k :: 0 < k < |pattern| ==> pattern[k..] != pattern[..|pattern| - k]
  }

  lemma {:induction false} ScanOccurs(pattern: string, text: string, i: nat)
    requires pattern != []
    ensures forall o :: o in Scan(pattern, text, i) ==> i <= o && Occurs(pattern, text, o)
    decreases |text| - i
  {
    if i + |pattern| <= |text| {
      ScanOccurs(pattern, text, if text[i..i + |pattern|] == pattern then i + |pattern| else i + 1);
    }
  }

  lemma OverlapIsBorder(pattern: string, text: string, i: nat, o: nat)
    requires Occurs(pattern, text, i) && Occurs(pattern, text, o) && i < o < i + |pattern|
    ensures !Unbordered(pattern)
  {
    var k := o - i;
    assert pattern[k..] == text[o..i + |pattern|] == pattern[..|pattern| - k];
  }

  lemma {:induction false} ScanFindsAll(pattern: string, text: string, i: nat, o: nat)
    requires pattern != [] && Unbordered(pattern) && i <= o && Occurs(pattern, text, o)
    ensures o in Scan(pattern, text, i)
    decreases |text| - i
  {
    hide Unbordered, Occurs;
    ScanStep(pattern, text, i, o);
    if Occurs(pattern, text, i) {
      if i < o < i + |pattern| {
        OverlapIsBorder(pattern, text, i, o);
        assert false;
      } else if o != i {
        ScanFindsAll(pattern, text, i + |pattern|, o);
      }
    } else {
      ScanFindsAll(pattern, text, i + 1, o);
    }
  }

  lemma ScanStep(pattern: string, text: string, i: nat, o: nat)
    requires pattern != [] && i <= o && Occurs(pattern, text, o)
    ensures o + |pattern| <= |text| && (!Occurs(pattern, text, i) ==> i < o)
    ensures Scan(pattern, text, i) ==
            if Occurs(pattern, text, i) then [i] + Scan(pattern, text, i + |pattern|) else Scan(pattern, text, i + 1)
  {
  }

  /** One of the matches covers the offset. */
  ghost predicate Covered(offsets: seq<nat>, o: nat, n: nat) {
    exists k :: 0 <= k < |offsets| && offsets[k] <= o < offsets[k] + n
  }

  /** The matches are occurrences apart from each other, and every occurrence is one or begins inside one. */
  ghost predicate LeftmostMatches(pattern: string, text: string, i: nat, offsets: seq<nat>) {
    (forall k :: 0 <= k < |offsets| ==> i <= offsets[k] && Occurs(pattern, text, offsets[k])) &&
    (forall j, k :: 0 <= j < k < |offsets| ==> offsets[j] + |pattern| <= offsets[k]) &&
    forall o: nat :: i <= o && Occurs(pattern, text, o) ==> Covered(offsets, o, |pattern|)
  }

  lemma CoveredLater(offsets: seq<nat>, i: nat, o: nat, n: nat)
    ensures Covered([i] + offsets, o, n) <==> i <= o < i + n || Covered(offsets, o, n)
  {
    var all := [i] + offsets;
    assert all[0] == i && forall k :: 0 <= k < |offsets| ==> all[k + 1] == offsets[k];
  }

  lemma MatchInFront(pattern: string, text: string, i: nat, later: seq<nat>)
    requires Occurs(pattern, text, i) && LeftmostMatches(pattern, text, i + |pattern|, later)
    ensures LeftmostMatches(pattern, text, i, [i] + later)
  {
    hide Occurs, Covered;
    forall o: nat | i <= o && Occurs(pattern, text, o)
      ensures Covered([i] + later, o, |pattern|)
    {
      CoveredLater(later, i, o, |pattern|);
    }
  }

  lemma NoMatchInFront(pattern: string, text: string, i: nat, later: seq<nat>)
    requires !Occurs(pattern, text, i) && LeftmostMatches(pattern, text, i + 1, later)
    ensures LeftmostMatches(pattern, text, i, later)
  {
  }

  lemma {:induction false} ScanIsLeftmost(pattern: string, text: string, i: nat)
    requires pattern != []
    ensures LeftmostMatches(pattern, text, i, Scan(pattern, text, i))
    decreases |text| - i
  {
    if i + |pattern| <= |text| {
      OccursFits(pattern, text, i);
      hide LeftmostMatches, Occurs;
      if Occurs(pattern, text, i) {
        ScanIsLeftmost(pattern, text, i + |pattern|);
        MatchInFront(pattern, text, i, Scan(pattern, text, i + |pattern|));
      } else {
        ScanIsLeftmost(pattern, text, i + 1);
        NoMatchInFront(pattern, text, i, Scan(pattern, text, i + 1));
      }
    }
  }

  lemma OccursFits(pattern: string, text: string, o: nat)
    ensures Occurs(pattern, text, o) <==> o + |pattern| <= |text| && text[o..o + |pattern|] == pattern
  {
  }

  // ---------- trees ----------

  /** Path to hash, for every file of a tree. */
  function Blobs(tree: seq<File>, sha: string -> string): (m: map<string, string>) {
    if tree == [] then map[]
    else
      var f := tree[|tree| - 1];
      Blobs(tree[..|tree| - 1], sha)[f.path := sha(f.content)]
  }

  lemma {:induction false} BlobOf(tree: seq<File>, sha: string -> string, path: string)
    requires IsTree(tree)
    ensures path in Blobs(tree, sha) <==> exists i :: 0 <= i < |tree| && tree[i].path == path
    ensures forall i :: 0 <= i < |tree| && tree[i].path == path ==> Blobs(tree, sha)[path] == sha(tree[i].content)
  {
    if tree != [] {
      BlobOf(tree[..|tree| - 1], sha, path);
    }
  }

  method BaseBlobs(tree: seq<File>, sha: string -> string) returns (result: map<string, string>)
    ensures result == Blobs(tree, sha)
  {
    result := map[];
    for i := 0 to |tree|
      invariant result == Blobs(tree[..i], sha)
    {
      result := result[tree[i].path := sha(tree[i].content)];
      assert tree[..i + 1][..i] == tree[..i];
    }
    assert tree[..|tree|] == tree;
  }

  datatype Entry = Entry(path: string, hash: string)

  /** The path does not have this content any more. */
  predicate Superseded(f: File, atHead: map<string, string>, sha: string -> string) {
    f.path !in atHead || atHead[f.path] != sha(f.content)
  }

  /** The name is gone, but some file has the content. */
  predicate Moved(f: File, atHead: map<string, string>, sha: string -> string) {
    f.path !in atHead && sha(f.content) in atHead.Values
  }

  function SupersededContent(base: seq<File>, atHead: map<string, string>, sha: string -> string): (r: seq<Entry>)
    ensures forall e :: e in r <==>
              exists f :: f in base && Superseded(f, atHead, sha) && e == Entry(f.path, sha(f.content))
  {
    if base == [] then []
    else
      var f := base[|base| - 1];
      SupersededContent(base[..|base| - 1], atHead, sha) +
      if Superseded(f, atHead, sha) then [Entry(f.path, sha(f.content))] else []
  }

  /** The first path with this hash. */
  function FirstWith(head: seq<File>, sha: string -> string, hash: string): (r: Option<string>)
    ensures r == None <==> forall f :: f in head ==> sha(f.content) != hash
    ensures r.Some? ==> exists f :: f in head && f.path == r.value && sha(f.content) == hash
  {
    if head == [] then None
    else if sha(head[0].content) == hash then Some(head[0].path)
    else FirstWith(head[1..], sha, hash)
  }

  /** No file in front of it has the hash. */
  lemma {:induction false} FirstWithIsFirst(head: seq<File>, sha: string -> string, hash: string) returns (i: nat)
    requires FirstWith(head, sha, hash).Some?
    ensures i < |head| && head[i].path == FirstWith(head, sha, hash).value && sha(head[i].content) == hash
    ensures forall k :: 0 <= k < i ==> sha(head[k].content) != hash
  {
    i := 0;
    if sha(head[0].content) != hash {
      i := FirstWithIsFirst(head[1..], sha, hash);
      i := i + 1;
    }
  }

  /** In terms of the two trees: no committed file has both the path and the content. */
  lemma {:induction false} SupersededMeans(f: File, head: seq<File>, sha: string -> string)
    requires IsTree(head)
    ensures Superseded(f, Blobs(head, sha), sha) <==>
            forall g :: g in head ==> g.path != f.path || sha(g.content) != sha(f.content)
  {
    BlobOf(head, sha, f.path);
    hide Blobs;
    if i: nat :| i < |head| && head[i].path == f.path {
      assert head[i] in head;
    }
  }

  /** The path is gone, and a committed file has the content. */
  lemma MovedMeans(f: File, head: seq<File>, sha: string -> string)
    requires IsTree(head)
    ensures Moved(f, Blobs(head, sha), sha) <==>
            (forall g :: g in head ==> g.path != f.path) && exists g :: g in head && sha(g.content) == sha(f.content)
  {
    BlobOf(head, sha, f.path);
    HashInTree(head, sha, sha(f.content));
    hide Blobs, FirstWith;
    assert forall g :: g in head ==> exists i :: 0 <= i < |head| && head[i] == g;
  }

  lemma {:induction false} FirstWithAppend(head: seq<File>, sha: string -> string, hash: string, f: File)
    ensures FirstWith(head + [f], sha, hash) ==
            if FirstWith(head, sha, hash).Some? then FirstWith(head, sha, hash)
            else if sha(f.content) == hash then Some(f.path) else None
  {
    if head == [] {
      assert FirstWith([], sha, hash) == None;
    } else {
      assert (head + [f])[1..] == head[1..] + [f];
      FirstWithAppend(head[1..], sha, hash, f);
    }
  }

  lemma HashInTree(head: seq<File>, sha: string -> string, hash: string)
    requires IsTree(head)
    ensures hash in Blobs(head, sha).Values <==> FirstWith(head, sha, hash).Some?
  {
    var blobs := Blobs(head, sha);
    forall path {
      BlobOf(head, sha, path);
    }
    if hash in blobs.Values {
      var path :| path in blobs && blobs[path] == hash;
      var i :| 0 <= i < |head| && head[i].path == path;
      assert head[i] in head;
    }
    if FirstWith(head, sha, hash).Some? {
      var f :| f in head && sha(f.content) == hash;
      assert blobs[f.path] == hash;
    }
  }

  function Lookup<K, V>(m: map<K, V>, k: K): Option<V> { if k in m then Some(m[k]) else None }

  method FirstPaths(head: seq<File>, sha: string -> string) returns (firstAt: map<string, string>)
    ensures forall h :: Lookup(firstAt, h) == FirstWith(head, sha, h)
  {
    firstAt := map[];
    for i := 0 to |head|
      invariant forall h :: Lookup(firstAt, h) == FirstWith(head[..i], sha, h)
    {
      ghost var before := firstAt;
      if sha(head[i].content) !in firstAt {
        firstAt := firstAt[sha(head[i].content) := head[i].path];
      }
      forall h ensures Lookup(firstAt, h) == FirstWith(head[..i + 1], sha, h) {
        hide FirstWith;
        FirstWithAppend(head[..i], sha, h, head[i]);
        assert head[..i + 1] == head[..i] + [head[i]];
        assert Lookup(before, h) == FirstWith(head[..i], sha, h);
      }
    }
    assert head[..|head|] == head;
  }

  /** Exactly the vanished paths whose content lives on, each with the first path that holds it. */
  method MovedContent(base: seq<File>, head: seq<File>, sha: string -> string) returns (moved: map<string, string>)
    requires IsTree(base) && IsTree(head)
    ensures forall path :: path in moved <==> exists f :: f in base && f.path == path && Moved(f, Blobs(head, sha), sha)
    ensures forall f :: f in base && f.path in moved ==> Some(moved[f.path]) == FirstWith(head, sha, sha(f.content))
  {
    hide Blobs, FirstWith;
    var atHead := BaseBlobs(head, sha);
    var firstAt := FirstPaths(head, sha);
    moved := map[];
    for i := 0 to |base|
      invariant forall path :: path in moved <==>
                exists k :: 0 <= k < i && base[k].path == path && Moved(base[k], atHead, sha)
      invariant forall k :: 0 <= k < i && base[k].path in moved ==>
                Some(moved[base[k].path]) == FirstWith(head, sha, sha(base[k].content))
    {
      var f := base[i];
      HashInTree(head, sha, sha(f.content));
      FirstIsInTree(head, sha, sha(f.content));
      if !(f.path in atHead && atHead[f.path] == sha(f.content)) && f.path !in atHead {
        if sha(f.content) in firstAt && firstAt[sha(f.content)] != f.path {
          moved := moved[f.path := firstAt[sha(f.content)]];
        }
      }
    }
  }

  lemma FirstIsInTree(head: seq<File>, sha: string -> string, hash: string)
    requires IsTree(head)
    ensures FirstWith(head, sha, hash).Some? ==> FirstWith(head, sha, hash).value in Blobs(head, sha)
  {
    if FirstWith(head, sha, hash).Some? {
      BlobOf(head, sha, FirstWith(head, sha, hash).value);
    }
  }

  // ---------- records that excuse an occurrence ----------

  /** Every string value of a parsed document. */
  function StringValues(node: Json): set<string> {
    match node
    case Object(values) => StringValuesOf(values)
    case Array(items) => StringValuesOf(items)
    case Str(s) => {s}
    case Scalar => {}
  }

  function StringValuesOf(nodes: seq<Json>): set<string> {
    if nodes == [] then {} else StringValues(nodes[0]) + StringValuesOf(nodes[1..])
  }

  /** The string v stands in the document, some way down. */
  ghost predicate Holds(node: Json, v: string) {
    match node
    case Object(values) => exists i :: 0 <= i < |values| && Holds(values[i], v)
    case Array(items) => exists i :: 0 <= i < |items| && Holds(items[i], v)
    case Str(s) => s == v
    case Scalar => false
  }

  lemma {:induction false} StringValuesAreHeld(node: Json, v: string)
    ensures v in StringValues(node) <==> Holds(node, v)
  {
    match node
    case Object(values) => ChildrenHold(values, v);
    case Array(items) => ChildrenHold(items, v);
    case Str(s) =>
    case Scalar =>
  }

  lemma {:induction false} ChildrenHold(nodes: seq<Json>, v: string)
    ensures v in StringValuesOf(nodes) <==> exists i :: 0 <= i < |nodes| && Holds(nodes[i], v)
  {
    if nodes != [] {
      StringValuesAreHeld(nodes[0], v);
      ChildrenHold(nodes[1..], v);
      assert forall i :: 0 < i < |nodes| ==> nodes[i] == nodes[1..][i - 1];
    }
  }

  /** The directory of a path, as rsplit finds it. */
  function Parent(path: string): string {
    if path == [] then [] else if path[|path| - 1] == '/' then path[..|path| - 1] else Parent(path[..|path| - 1])
  }

  /** The file that a key names: next to the document first, then from the root. */
  function Resolve(rel: string, key: string, atHead: map<string, string>): (r: Option<string>)
    ensures r.Some? ==> r.value in atHead
  {
    var near := if Parent(rel) != [] then Parent(rel) + "/" + key else key;
    if near in atHead then Some(near) else if key in atHead then Some(key) else None
  }

  /** What is in front of the last slash. */
  lemma {:induction false} ParentOf(dir: string, name: string)
    requires '/' !in name
    ensures Parent(dir + "/" + name) == dir
  {
    var path := dir + "/" + name;
    if name == [] {
      assert path[..|path| - 1] == dir;
    } else {
      assert path[..|path| - 1] == dir + "/" + name[..|name| - 1];
      ParentOf(dir, name[..|name| - 1]);
    }
  }

  lemma {:induction false} NoParent(name: string)
    requires '/' !in name
    ensures Parent(name) == []
  {
    if name != [] {
      NoParent(name[..|name| - 1]);
    }
  }

  lemma {:induction false} LastSlash(path: string) returns (dir: string, name: string)
    requires '/' in path
    ensures path == dir + "/" + name && '/' !in name
  {
    var n := |path| - 1;
    assert path == path[..n] + [path[n]];
    if path[n] == '/' {
      dir, name := path[..n], [];
    } else {
      dir, name := LastSlash(path[..n]);
      name := name + [path[n]];
    }
  }

  /** A document in the directory dir: its key names the file next to it if there is one, else the file at the root. */
  ghost predicate NamedFrom(dir: string, key: string, atHead: map<string, string>, named: string) {
    named in atHead &&
    if dir != "" && dir + "/" + key in atHead then named == dir + "/" + key else named == key
  }

  /** The document rel stands in the directory dir; at the root it stands in none. */
  predicate StandsIn(rel: string, dir: string) {
    if '/' in rel then
      |dir| < |rel| && rel[..|dir|] == dir && rel[|dir|] == '/' && '/' !in rel[|dir| + 1..]
    else dir == ""
  }

  ghost predicate NamedFile(rel: string, key: string, atHead: map<string, string>, named: string) {
    exists dir :: StandsIn(rel, dir) && NamedFrom(dir, key, atHead, named)
  }

  lemma {:induction false} StandsInParent(rel: string, dir: string)
    ensures StandsIn(rel, dir) <==> dir == Parent(rel)
  {
    if '/' in rel {
      var d, name := LastSlash(rel);
      ParentOf(d, name);
      assert rel[..|d|] == d && rel[|d| + 1..] == name;
      if StandsIn(rel, dir) {
        assert rel == dir + "/" + rel[|dir| + 1..];
        ParentOf(dir, rel[|dir| + 1..]);
      }
    } else {
      NoParent(rel);
    }
  }

  /** The file next to the document comes first. */
  lemma ResolveIsNamed(rel: string, key: string, atHead: map<string, string>, named: string)
    ensures Resolve(rel, key, atHead) == Some(named) <==> NamedFile(rel, key, atHead, named)
  {
    forall dir {
      StandsInParent(rel, dir);
    }
    assert StandsIn(rel, Parent(rel));
    hide Parent, StandsIn;
    assert NamedFrom(Parent(rel), key, atHead, named) <==> Resolve(rel, key, atHead) == Some(named);
  }

  /** The same rule by cases: with a directory, the file in it, else the one at the root. */
  lemma NearFileFirst(dir: string, name: string, key: string, atHead: map<string, string>)
    requires '/' !in name && dir != ""
    ensures var near := dir + "/" + key;
            Resolve(dir + "/" + name, key, atHead) ==
            if near in atHead then Some(near) else if key in atHead then Some(key) else None
  {
    ParentOf(dir, name);
  }

  lemma RootFileOnly(name: string, key: string, atHead: map<string, string>)
    requires '/' !in name
    ensures Resolve(name, key, atHead) == if key in atHead then Some(key) else None
  {
    NoParent(name);
  }

  /** The key of the object at s, as the parser decodes it. */
  ghost predicate IsKeyOf(text: string, s: nat, key: string, loads: string -> Option<Json>)
    requires s <= |text|
  {
    match KeyNaming(text, s)
    case None => false
    case Some(rawKey) => loads("\"" + rawKey + "\"") == Some(Str(key))
  }

  /** The key of the object at s names this file. */
  ghost predicate KeyNames(rel: string, text: string, s: nat, named: string, atHead: map<string, string>,
                           loads: string -> Option<Json>)
    requires s <= |text|
  {
    exists key :: IsKeyOf(text, s, key, loads) && NamedFile(rel, key, atHead, named)
  }

  /** The object s..e is bound to a key that names this file, which had an old hash, and some string value of the
  object is the hash that it has now. */
  ghost predicate IsRecord(rel: string, text: string, s: nat, e: nat, named: string, atHead: map<string, string>,
                           oldOf: map<string, string>, loads: string -> Option<Json>)
  {
    s <= e < |text| && KeyNames(rel, text, s, named, atHead, loads) && named in oldOf && named in atHead &&
    match loads(text[s..e + 1])
    case None => false
    case Some(record) => HoldsHash(record, atHead[named])
  }

  ghost predicate HoldsHash(record: Json, hash: string) {
    exists v :: Holds(record, v) && Lower(v) == Lower(hash)
  }

  lemma ValuesAreHeld(record: Json, values: set<string>, hash: string)
    requires values == set v | v in StringValues(record) :: Lower(v)
    ensures Lower(hash) in values <==> HoldsHash(record, hash)
  {
    hide Lower;
    forall v {
      StringValuesAreHeld(record, v);
    }
    if HoldsHash(record, hash) {
      var v :| Holds(record, v) && Lower(v) == Lower(hash);
      assert v in StringValues(record);
    }
  }

  /** The record s..e excuses the occurrence at o: there stands the old hash of the file it is about. */
  ghost predicate Excuses(rel: string, text: string, s: nat, e: nat, named: string, o: nat, atHead: map<string, string>,
                          oldOf: map<string, string>, loads: string -> Option<Json>)
  {
    IsRecord(rel, text, s, e, named, atHead, oldOf, loads) && s <= o && oldOf[named] != [] &&
    o - s in Scan(oldOf[named], Lower(text[s..e + 1]), 0)
  }

  /** A record of the document, with braces that belong together, excuses the occurrence. */
  ghost predicate Excused(rel: string, text: string, o: nat, atHead: map<string, string>, oldOf: map<string, string>,
                          loads: string -> Option<Json>)
  {
    loads(text).Some? &&
    exists s: nat, e: nat, named: string ::
      Match(text, s, e) && Excuses(rel, text, s, e, named, o, atHead, oldOf, loads)
  }

  /** The file that the object at s is about. A quoted key parses to a string or not at all. */
  method Subject(rel: string, text: string, s: nat, atHead: map<string, string>, loads: string -> Option<Json>)
    returns (subject: Option<string>)
    requires s <= |text|
    ensures subject.Some? ==> subject.value in atHead
    ensures forall named :: KeyNames(rel, text, s, named, atHead, loads) <==> subject == Some(named)
  {
    hide NamedFile, KeyNaming, Resolve;
    subject := None;
    var rawKey := KeyNaming(text, s);
    if rawKey == None {
      return;
    }
    var key := loads("\"" + rawKey.value + "\"");
    if key.Some? && key.value.Str? {
      subject := Resolve(rel, key.value.s, atHead);
      forall named {
        ResolveIsNamed(rel, key.value.s, atHead, named);
      }
      assert IsKeyOf(text, s, key.value.s, loads);
    }
  }

  /** The offsets that one object excuses. */
  method ExcusedBy(rel: string, text: string, s: nat, e: nat, atHead: map<string, string>, oldOf: map<string, string>,
                   loads: string -> Option<Json>) returns (excused: set<nat>)
    requires s <= e < |text|
    requires forall path :: path in oldOf ==> oldOf[path] != []
    ensures forall o :: o in excused <==> exists named :: Excuses(rel, text, s, e, named, o, atHead, oldOf, loads)
  {
    hide KeyNames, Scan, StringValues;
    excused := {};
    var subject := Subject(rel, text, s, atHead, loads);
    if subject == None || subject.value !in oldOf {
      return;
    }
    var named, body := subject.value, text[s..e + 1];
    var prior, record := oldOf[named], loads(body);
    if record == None {
      return;
    }
    var values := set v | v in StringValues(record.value) :: Lower(v);
    ValuesAreHeld(record.value, values, atHead[named]);
    if Lower(atHead[named]) !in values {
      return;
    }
    assert IsRecord(rel, text, s, e, named, atHead, oldOf, loads);
    var offsets := Scan(prior, Lower(body), 0);
    for i := 0 to |offsets|
      invariant forall o :: o in excused <==> s <= o && o - s in offsets[..i]
    {
      excused := excused + {s + offsets[i]};
    }
    assert offsets[..|offsets|] == offsets;
    assert forall o :: o in excused <==> Excuses(rel, text, s, e, named, o, atHead, oldOf, loads);
  }

  /** Exactly the occurrences that a record of the document excuses. */
  method ExcusedSpans(rel: string, text: string, atHead: map<string, string>, oldOf: map<string, string>,
                      loads: string -> Option<Json>) returns (excused: set<nat>)
    requires forall path :: path in oldOf ==> oldOf[path] != []
    ensures forall o :: o in excused <==> Excused(rel, text, o, atHead, oldOf, loads)
  {
    hide Match, Excuses;
    excused := {};
    if loads(text) == None {
      return;
    }
    var spans := ObjectSpans(text);
    forall s: nat, e: nat | Match(text, s, e) ensures s < e < |text| {
      MatchIsInText(text, s, e);
    }
    for i := 0 to |spans|
      invariant forall o :: o in excused <==>
                exists k, named :: 0 <= k < i &&
                  Excuses(rel, text, spans[k].0, spans[k].1, named, o, atHead, oldOf, loads)
    {
      assert spans[i] in spans;
      var more := ExcusedBy(rel, text, spans[i].0, spans[i].1, atHead, oldOf, loads);
      excused := excused + more;
    }
  }

  /** An excused occurrence is the old hash of the file that the record is about, and stands in the record. */
  lemma ExcusedIsOldHash(rel: string, text: string, s: nat, e: nat, named: string, o: nat, atHead: map<string, string>,
                         oldOf: map<string, string>, loads: string -> Option<Json>)
    requires Excuses(rel, text, s, e, named, o, atHead, oldOf, loads)
    ensures named in atHead && s <= o && o + |oldOf[named]| <= e + 1 && Occurs(oldOf[named], Lower(text), o)
  {
    var prior, body := oldOf[named], text[s..e + 1];
    ScanOccurs(prior, Lower(body), 0);
    LowerSlice(text, s, e + 1);
    assert Lower(body)[o - s..o - s + |prior|] == Lower(text)[o..o + |prior|];
  }

  // ---------- the sweep ----------

  datatype Finding = Finding(file: string, offset: nat, hash: string, owner: string)

  /** The owner that a dictionary from hash to path ends up with. */
  function LastOwner(hashes: seq<Entry>, hash: string): (r: Option<string>)
    ensures r.Some? <==> exists e :: e in hashes && Lower(e.hash) == hash
  {
    if hashes == [] then None
    else
      var e := hashes[|hashes| - 1];
      if Lower(e.hash) == hash then Some(e.path) else LastOwner(hashes[..|hashes| - 1], hash)
  }

  /** The old hash of each path. */
  function OldOf(hashes: seq<Entry>): (m: map<string, string>)
    ensures forall path :: path in m <==> exists e :: e in hashes && e.path == path
    ensures forall path :: path in m ==> exists e :: e in hashes && e.path == path && m[path] == Lower(e.hash)
  {
    if hashes == [] then map[]
    else
      var e := hashes[|hashes| - 1];
      OldOf(hashes[..|hashes| - 1])[e.path := Lower(e.hash)]
  }

  predicate IsJsonName(path: string) {
    var n := Lower(path);
    |n| >= 5 && n[|n| - 5..] == ".json"
  }

  /** The name ends in .json, in whatever case. */
  lemma JsonNameIs(path: string)
    ensures var n := |path|;
            IsJsonName(path) <==>
            n >= 5 && path[n - 5] == '.' && path[n - 4] in "jJ" && path[n - 3] in "sS" && path[n - 2] in "oO" &&
            path[n - 1] in "nN"
  {
    var n := |path|;
    if n >= 5 {
      var ext := Lower(path)[n - 5..];
      assert ext == ".json" <==> ext[0] == '.' && ext[1] == 'j' && ext[2] == 's' && ext[3] == 'o' && ext[4] == 'n';
    }
  }

  /** Only JSON documents hold records. */
  ghost predicate ExcusedIn(f: File, o: nat, atHead: map<string, string>, oldOf: map<string, string>,
                            loads: string -> Option<Json>)
  {
    IsJsonName(f.path) && Excused(f.path, f.content, o, atHead, oldOf, loads)
  }

  /** The hash stands in the file at the offset, and no record excuses it. */
  ghost predicate Survives(f: File, o: nat, hash: string, atHead: map<string, string>, oldOf: map<string, string>,
                           loads: string -> Option<Json>)
  {
    hash != [] && o in Scan(hash, Lower(f.content), 0) && !ExcusedIn(f, o, atHead, oldOf, loads)
  }

  /** For a hash that cannot overlap itself the sweep judges every occurrence. */
  lemma EveryOccurrenceIsJudged(f: File, o: nat, hash: string, atHead: map<string, string>, oldOf: map<string, string>,
                                loads: string -> Option<Json>)
    requires hash != [] && Unbordered(hash)
    ensures Survives(f, o, hash, atHead, oldOf, loads) <==>
            Occurs(hash, Lower(f.content), o) && !ExcusedIn(f, o, atHead, oldOf, loads)
  {
    ScanOccurs(hash, Lower(f.content), 0);
    if Occurs(hash, Lower(f.content), o) {
      ScanFindsAll(hash, Lower(f.content), 0, o);
    }
  }

  /** No later path had it. */
  lemma {:induction false} LastOwnerIsLast(hashes: seq<Entry>, hash: string) returns (i: nat)
    requires LastOwner(hashes, hash).Some?
    ensures i < |hashes| && hashes[i].path == LastOwner(hashes, hash).value && Lower(hashes[i].hash) == hash
    ensures forall k :: i < k < |hashes| ==> Lower(hashes[k].hash) != hash
  {
    hide Lower;
    i := |hashes| - 1;
    if Lower(hashes[i].hash) != hash {
      i := LastOwnerIsLast(hashes[..i], hash);
    }
  }

  lemma LastOwnerAppend(hashes: seq<Entry>, e: Entry, hash: string)
    ensures LastOwner(hashes + [e], hash) == if Lower(e.hash) == hash then Some(e.path) else LastOwner(hashes, hash)
  {
  }

  /** The distinct old hashes, each with the last path that had it. */
  method Wanted(hashes: seq<Entry>) returns (order: seq<string>, owner: map<string, string>)
    ensures forall h :: Lookup(owner, h) == LastOwner(hashes, h)
    ensures forall h :: h in order <==> h in owner
  {
    order, owner := [], map[];
    for i := 0 to |hashes|
      invariant forall h :: Lookup(owner, h) == LastOwner(hashes[..i], h)
      invariant forall h :: h in order <==> h in owner
    {
      var e := hashes[i];
      ghost var before := owner;
      if Lower(e.hash) !in owner {
        order := order + [Lower(e.hash)];
      }
      owner := owner[Lower(e.hash) := e.path];
      forall h ensures Lookup(owner, h) == LastOwner(hashes[..i + 1], h) {
        hide LastOwner, Lower;
        LastOwnerAppend(hashes[..i], e, h);
        assert hashes[..i + 1] == hashes[..i] + [e];
        assert Lookup(before, h) == LastOwner(hashes[..i], h);
      }
    }
    assert hashes[..|hashes|] == hashes;
  }

  method OldHashes(hashes: seq<Entry>) returns (oldOf: map<string, string>)
    ensures oldOf == OldOf(hashes)
  {
    oldOf := map[];
    for i := 0 to |hashes|
      invariant oldOf == OldOf(hashes[..i])
    {
      assert hashes[..i + 1][..i] == hashes[..i];
      oldOf := oldOf[hashes[i].path := Lower(hashes[i].hash)];
    }
    assert hashes[..|hashes|] == hashes;
  }

  /** What the sweep finds in one file. */
  method FindingsIn(f: File, order: seq<string>, owner: map<string, string>, atHead: map<string, string>,
                    oldOf: map<string, string>, loads: string -> Option<Json>) returns (findings: seq<Finding>)
    requires forall path :: path in oldOf ==> oldOf[path] != []
    requires forall h :: h in order ==> h in owner && h != []
    ensures forall x :: x in findings <==>
              x.file == f.path && x.hash in order && x.owner == owner[x.hash] &&
              Survives(f, x.offset, x.hash, atHead, oldOf, loads)
  {
    hide Excused, Scan;
    var lowered := Lower(f.content);
    var excused := {};
    if IsJsonName(f.path) {
      excused := ExcusedSpans(f.path, f.content, atHead, oldOf, loads);
    }
    findings := [];
    for i := 0 to |order|
      invariant forall x :: x in findings <==>
                  x.file == f.path && x.hash in order[..i] && x.owner == owner[x.hash] &&
                  Survives(f, x.offset, x.hash, atHead, oldOf, loads)
    {
      ghost var before := findings;
      var hash := order[i];
      assert hash in order;
      var offsets := Scan(hash, lowered, 0);
      for j := 0 to |offsets|
        invariant forall x :: x in findings <==>
                    x in before ||
                    (x.file == f.path && x.hash == hash && x.owner == owner[hash] &&
                     x.offset in offsets[..j] && x.offset !in excused)
      {
        if offsets[j] !in excused {
          findings := findings + [Finding(f.path, offsets[j], hash, owner[hash])];
        }
      }
      assert offsets[..|offsets|] == offsets;
      assert order[..i + 1] == order[..i] + [hash];
    }
    assert order[..|order|] == order;
  }

  /** Exactly the occurrences of old hashes in the committed tree that no record excuses. */
  method SurvivingOccurrences(hashes: seq<Entry>, head: seq<File>, sha: string -> string, loads: string -> Option<Json>)
    returns (findings: seq<Finding>)
    requires forall e :: e in hashes ==> e.hash != []
    ensures forall x :: x in findings <==>
              LastOwner(hashes, x.hash) == Some(x.owner) &&
              exists f :: f in head && f.path == x.file &&
                          Survives(f, x.offset, x.hash, Blobs(head, sha), OldOf(hashes), loads)
  {
    hide Survives, Blobs, OldOf, LastOwner;
    var order, owner := Wanted(hashes);
    var oldOf := OldHashes(hashes);
    var atHead := BaseBlobs(head, sha);
    assert forall h :: h in order ==> h in owner && h != [] by {
      forall h | h in order ensures h in owner && h != [] {
        assert Lookup(owner, h) == LastOwner(hashes, h);
      }
    }
    findings := [];
    for i := 0 to |head|
      invariant forall x :: x in findings <==>
                  LastOwner(hashes, x.hash) == Some(x.owner) &&
                  exists k :: 0 <= k < i && head[k].path == x.file &&
                              Survives(head[k], x.offset, x.hash, atHead, oldOf, loads)
    {
      var more := FindingsIn(head[i], order, owner, atHead, oldOf, loads);
      forall x: Finding
        ensures x.hash in order && x.owner == owner[x.hash] <==> LastOwner(hashes, x.hash) == Some(x.owner)
      {
        assert Lookup(owner, x.hash) == LastOwner(hashes, x.hash);
      }
      findings := findings + more;
    }
  }

  // ---------- the check ----------

  function Gone(superseded: seq<Entry>, moved: map<string, string>): (r: seq<Entry>)
    ensures forall e :: e in r <==> e in superseded && e.path !in moved
  {
    if superseded == [] then []
    else (if superseded[0].path in moved then [] else [superseded[0]]) + Gone(superseded[1..], moved)
  }

  /** No content was moved under a vanished name, and every occurrence of every old hash in every file is excused. */
  ghost predicate Clean(base: seq<File>, head: seq<File>, sha: string -> string, loads: string -> Option<Json>) {
    var atHead := Blobs(head, sha);
    (forall f :: f in base ==> !Moved(f, atHead, sha)) &&
    forall f, g, o: nat :: f in base && Superseded(f, atHead, sha) && g in head ==>
      !Survives(g, o, Lower(sha(f.content)), atHead, OldOf(SupersededContent(base, atHead, sha)), loads)
  }

  /** The same in terms of occurrences, overlapping ones included. */
  ghost predicate EveryOccurrenceExcused(base: seq<File>, head: seq<File>, sha: string -> string,
                                         loads: string -> Option<Json>)
  {
    var atHead := Blobs(head, sha);
    (forall f :: f in base ==> !Moved(f, atHead, sha)) &&
    forall f, g, o: nat :: f in base && Superseded(f, atHead, sha) && g in head &&
                           Occurs(Lower(sha(f.content)), Lower(g.content), o) ==>
      ExcusedIn(g, o, atHead, OldOf(SupersededContent(base, atHead, sha)), loads)
  }

  /** For hashes that cannot overlap themselves nothing is lost by scanning from the left. */
  lemma CleanIsEveryOccurrence(base: seq<File>, head: seq<File>, sha: string -> string, loads: string -> Option<Json>)
    requires IsHash(sha) && forall f :: f in base ==> Unbordered(Lower(sha(f.content)))
    ensures Clean(base, head, sha, loads) <==> EveryOccurrenceExcused(base, head, sha, loads)
  {
    hide Blobs, OldOf, SupersededContent, Unbordered, ExcusedIn, Survives, Occurs;
    var atHead := Blobs(head, sha);
    var oldOf := OldOf(SupersededContent(base, atHead, sha));
    if Clean(base, head, sha, loads) {
      forall f, g, o: nat | f in base && Superseded(f, atHead, sha) && g in head &&
                            Occurs(Lower(sha(f.content)), Lower(g.content), o)
        ensures ExcusedIn(g, o, atHead, oldOf, loads)
      {
        EveryOccurrenceIsJudged(g, o, Lower(sha(f.content)), atHead, oldOf, loads);
      }
    } else if EveryOccurrenceExcused(base, head, sha, loads) {
      forall f, g, o: nat | f in base && Superseded(f, atHead, sha) && g in head
        ensures !Survives(g, o, Lower(sha(f.content)), atHead, oldOf, loads)
      {
        EveryOccurrenceIsJudged(g, o, Lower(sha(f.content)), atHead, oldOf, loads);
      }
      assert false;
    }
  }

  /** Nothing is reported exactly if the scrub is clean. */
  method Check(base: seq<File>, head: seq<File>, sha: string -> string, loads: string -> Option<Json>)
    returns (findings: seq<Finding>, inconclusive: map<string, string>)
    requires IsTree(base) && IsTree(head) && IsHash(sha)
    ensures forall path :: path in inconclusive <==>
              exists f :: f in base && f.path == path && Moved(f, Blobs(head, sha), sha)
    ensures forall f :: f in base && f.path in inconclusive ==>
              Some(inconclusive[f.path]) == FirstWith(head, sha, sha(f.content))
    ensures var hashes := Gone(SupersededContent(base, Blobs(head, sha), sha), inconclusive);
            forall x :: x in findings <==>
              LastOwner(hashes, x.hash) == Some(x.owner) &&
              exists f :: f in head && f.path == x.file &&
                          Survives(f, x.offset, x.hash, Blobs(head, sha), OldOf(hashes), loads)
    ensures findings == [] && inconclusive == map[] <==> Clean(base, head, sha, loads)
    ensures (forall f :: f in base ==> Unbordered(Lower(sha(f.content)))) ==>
              (findings == [] && inconclusive == map[] <==> EveryOccurrenceExcused(base, head, sha, loads))
  {
    hide Survives, Blobs, OldOf, Clean, EveryOccurrenceExcused, Unbordered;
    inconclusive := MovedContent(base, head, sha);
    var atHead := BaseBlobs(head, sha);
    var gone := Gone(SupersededContent(base, atHead, sha), inconclusive);
    findings := [];
    assert forall e :: e in gone ==> |e.hash| == 64;
    if gone != [] {
      findings := SurvivingOccurrences(gone, head, sha, loads);
    }
    CleanIsSilent(base, head, sha, loads, findings, inconclusive);
    if forall f :: f in base ==> Unbordered(Lower(sha(f.content))) {
      CleanIsEveryOccurrence(base, head, sha, loads);
    }
  }

  lemma CleanIsSilent(base: seq<File>, head: seq<File>, sha: string -> string, loads: string -> Option<Json>,
                      findings: seq<Finding>, inconclusive: map<string, string>)
    requires forall path :: path in inconclusive <==>
               exists f :: f in base && f.path == path && Moved(f, Blobs(head, sha), sha)
    requires var hashes := Gone(SupersededContent(base, Blobs(head, sha), sha), inconclusive);
             forall x :: x in findings <==>
               LastOwner(hashes, x.hash) == Some(x.owner) &&
               exists f :: f in head && f.path == x.file &&
                           Survives(f, x.offset, x.hash, Blobs(head, sha), OldOf(hashes), loads)
    ensures findings == [] && inconclusive == map[] <==> Clean(base, head, sha, loads)
  {
    hide Survives, Blobs, OldOf, SupersededContent, LastOwner, Gone;
    var atHead := Blobs(head, sha);
    var superseded := SupersededContent(base, atHead, sha);
    var hashes := Gone(superseded, inconclusive);
    GoneNothing(superseded);
    if inconclusive != map[] {
      var path :| path in inconclusive;
    } else if findings != [] {
      var x := findings[0];
      assert x in findings;
      var e :| e in hashes && Lower(e.hash) == x.hash;
      assert e in superseded;
    } else {
      forall f, g, o: nat | f in base && Superseded(f, atHead, sha) && g in head
        ensures !Survives(g, o, Lower(sha(f.content)), atHead, OldOf(superseded), loads)
      {
        assert Entry(f.path, sha(f.content)) in hashes;
        var x := Finding(g.path, o, Lower(sha(f.content)), LastOwner(hashes, Lower(sha(f.content))).value);
        assert x !in findings;
      }
      forall f | f in base ensures !Moved(f, atHead, sha) {
        assert f.path !in inconclusive;
      }
    }
  }

  lemma {:induction false} GoneNothing(superseded: seq<Entry>)
    ensures Gone(superseded, map[]) == superseded
  {
    if superseded != [] {
      GoneNothing(superseded[1..]);
    }
  }
}
