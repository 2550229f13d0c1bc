/** Trees on which saving twice goes wrong, and one on which it goes right in an unusual way. */
module YamlWitness {
  import opened Bytes
  import opened YamlTree
  import opened YamlMerge
  import opened YamlMergeFacts
  import opened YamlPreserve
  import opened YamlReach
  import opened YamlTwice

  function Text(s: string): Node {
    Scalar("!!str", s, "")
  }

  function Map(entries: seq<Entry>): Node {
    Mapping("!!map", "", "", entries)
  }

  function List(items: seq<Node>): Node {
    Sequence("!!seq", "", "", items)
  }

  function Under(key: string, node: Node): Node {
    Map([Entry(Text(key), node)])
  }

  lemma MergedUnder(key: string, dst: Node, src: Node, path: Path)
    ensures Merged(Under(key, dst), Under(key, src), path) == Under(key, Merged(dst, src, path + [key]))
  {
    hide Merged, IsKnownDefault, Pruned;
    var d, g := Under(key, dst), Under(key, src);
    FindKeyIs(d.entries, key, 0);
    assert MergedEntries(d.entries, g, 0, path) == d.entries;
    assert MergedEntries(d.entries, g, 1, path) == Under(key, Merged(dst, src, path + [key])).entries;
    MergedMapping(d, g, path);
  }

  // ----- what an element is known by -----

  lemma {:induction false} NoScalarValue(entries: seq<Entry>, key: string)
    requires forall i :: 0 <= i < |entries| ==> ToLower(Trim(entries[i].key.text)) != ToLower(key)
    ensures ScalarValue(entries, key) == ""
    decreases |entries|
  {
    hide Trim, ToLower;
    if entries != [] {
      NoScalarValue(entries[1..], key);
    }
  }

  lemma {:induction false} NoNamedIdentity(entries: seq<Entry>, keys: seq<string>)
    requires forall i, k :: 0 <= i < |entries| && 0 <= k < |keys| ==>
               ToLower(Trim(entries[i].key.text)) != ToLower(keys[k])
    ensures FirstIdentity(entries, keys) == ""
    decreases |keys|
  {
    hide Trim, ToLower, ScalarValue;
    if keys != [] {
      NoScalarValue(entries, keys[0]);
      NoNamedIdentity(entries, keys[1..]);
    }
  }

  lemma OnlyCandidate(o: Node, t: Node)
    ensures Ordered([o], [t])[0] == if Wanted(o, t, true) || StructurallyEqual(o, t) then Some(o) else None
  {
    hide Wanted;
    assert Picks([o], [t], 0) == [];
    var used := Used(1, []);
    assert used == [false];
    NeedOne(o, t, used, true);
    NeedOne(o, t, used, false);
    assert Wanted(o, t, false) == StructurallyEqual(o, t) by { WantedStructure(o, t); }
  }

  lemma WantedStructure(o: Node, t: Node)
    ensures Wanted(o, t, false) == StructurallyEqual(o, t)
  {
  }

  lemma NeedOne(o: Node, t: Node, used: seq<bool>, byIdentity: bool)
    requires used == [false]
    ensures FirstWanted([o], used, t, byIdentity, 1) == if Wanted(o, t, byIdentity) then Some(0) else None
  {
    hide Wanted;
    assert FirstWanted([o], used, t, byIdentity, 0) == None;
  }

  // ----- a file that the second save changes -----

  const URLS: Node := List([Text("turn:host")])
  const WRITTEN: Node :=
    Map([Entry(Text("credential"), Text("")), Entry(Text("username"), Text("user")), Entry(Text("urls"), URLS)])
  const GENERATED: Node :=
    Map([Entry(Text("urls"), URLS), Entry(Text("username"), Text("user")), Entry(Text("credential"), Text("pass"))])
  const SAVED: Node :=
    Map([Entry(Text("credential"), Text("pass")), Entry(Text("username"), Text("user")), Entry(Text("urls"), URLS)])

  /** A configuration with one server for the media relay. */
  function WithServer(server: Node): Node {
    Under("codex", Under("live-media-relay", Under("ice-servers", List([server]))))
  }

  const SERVERS: Path := ["codex", "live-media-relay", "ice-servers"]

  lemma MergedList(dst: seq<Node>, src: seq<Node>, path: Path)
    ensures Merged(List(dst), List(src), path) == List(seq(|src|, i requires 0 <= i < |src| => Placed(dst, src, path, i)))
  {
    hide Ordered, MergedElement;
    assert Merged(List(dst), List(src), path).items == seq(|src|, i requires 0 <= i < |src| => Placed(dst, src, path, i));
  }

  lemma MergedServer(dst: Node, src: Node)
    ensures Merged(WithServer(dst), WithServer(src), []) == WithServer(Placed([dst], [src], SERVERS, 0))
  {
    hide Placed, Merged;
    var relay, codex := Under("ice-servers", List([dst])), Under("ice-servers", List([src]));
    MergedUnder("codex", Under("live-media-relay", relay), Under("live-media-relay", codex), []);
    MergedUnder("live-media-relay", relay, codex, ["codex"]);
    MergedUnder("ice-servers", List([dst]), List([src]), ["codex", "live-media-relay"]);
    assert [] + ["codex"] == ["codex"] && ["codex"] + ["live-media-relay"] == ["codex", "live-media-relay"];
    assert ["codex", "live-media-relay"] + ["ice-servers"] == SERVERS;
    MergedList([dst], [src], SERVERS);
    assert seq(1, i requires 0 <= i < 1 => Placed([dst], [src], SERVERS, i)) == [Placed([dst], [src], SERVERS, 0)];
  }

  lemma PlainText()
    ensures forall s :: s in ["credential", "username", "urls", "user", "pass", "x", "z", "v", "q", ""] ==> Trim(s) == s
  {
  }

  lemma LowerCase(s: string)
    requires forall i :: 0 <= i < |s| ==> !('A' <= s[i] <= 'Z')
    ensures ToLower(s) == s
  {
  }

  predicate NoIdentityKey(key: string) {
    forall k :: 0 <= k < |IDENTITY_KEYS| ==> ToLower(IDENTITY_KEYS[k]) != ToLower(Trim(key))
  }

  lemma PlainKey(key: string)
    requires key in ["credential", "username", "urls", "x", "z"]
    ensures Trim(key) == key == ToLower(key) && NoIdentityKey(key)
  {
    hide Trim, ToLower;
    PlainText();
    LowerCase(key);
    forall k | 0 <= k < |IDENTITY_KEYS| ensures ToLower(IDENTITY_KEYS[k]) != key {
      LowerCase(IDENTITY_KEYS[k]);
      assert |IDENTITY_KEYS[k]| != |key| || IDENTITY_KEYS[k][0] != key[0];
    }
  }

  predicate Blank(e: Entry) {
    e.value.Scalar? ==> Trim(e.value.text) == ""
  }

  lemma {:induction false} FirstScalarIs(entries: seq<Entry>, i: nat)
    requires i < |entries| && entries[i].value.Scalar? && Trim(entries[i].value.text) != ""
    requires forall j :: 0 <= j < i ==> Blank(entries[j])
    ensures FirstScalar(entries) == ToLower(Trim(entries[i].key.text)) + "=" + Trim(entries[i].value.text)
    decreases i
  {
    hide Trim, ToLower;
    if i > 0 {
      assert Blank(entries[0]);
      FirstScalarIs(entries[1..], i - 1);
    }
  }

  /** Without identity keys an element is known by its first scalar that is not blank. */
  lemma KnownBy(element: Node, i: nat)
    requires element.Mapping? && forall j :: 0 <= j < |element.entries| ==> NoIdentityKey(element.entries[j].key.text)
    requires i < |element.entries| && !Blank(element.entries[i]) && forall j :: 0 <= j < i ==> Blank(element.entries[j])
    ensures var e := element.entries[i]; Identity(element) == ToLower(Trim(e.key.text)) + "=" + Trim(e.value.text)
  {
    hide Trim, ToLower, FirstScalar;
    forall j, k | 0 <= j < |element.entries| && 0 <= k < |IDENTITY_KEYS|
      ensures ToLower(Trim(element.entries[j].key.text)) != ToLower(IDENTITY_KEYS[k])
    {
      assert NoIdentityKey(element.entries[j].key.text);
    }
    NoNamedIdentity(element.entries, IDENTITY_KEYS);
    FirstScalarIs(element.entries, i);
  }

  lemma ServersKnownBy()
    ensures Identity(WRITTEN) == Identity(GENERATED) == "username" + "=" + "user"
    ensures Identity(SAVED) == "credential" + "=" + "pass"
  {
    hide Trim, ToLower, FirstScalar, Identity, NoIdentityKey;
    PlainText();
    PlainKey("credential");
    PlainKey("username");
    PlainKey("urls");
    KnownBy(WRITTEN, 1);
    KnownBy(GENERATED, 1);
    KnownBy(SAVED, 0);
  }

  /** The first save fills in the password at its old place, before the user name. */
  lemma FirstSave()
    ensures MergedElement(WRITTEN, GENERATED, SERVERS) == SAVED
  {
    hide Trim, IsKnownDefault, Pruned, FindKey;
    PlainText();
    var path := SERVERS;
    FindKeyIs(WRITTEN.entries, "credential", 0);
    FindKeyIs(WRITTEN.entries, "username", 1);
    FindKeyIs(WRITTEN.entries, "urls", 2);
    SameAsItself(URLS);
    UnchangedStaysUnchanged(URLS, URLS, path + ["urls"]);
    assert MergedEntries(WRITTEN.entries, GENERATED, 0, path) == WRITTEN.entries;
    assert MergedEntries(WRITTEN.entries, GENERATED, 1, path) == WRITTEN.entries;
    assert MergedEntries(WRITTEN.entries, GENERATED, 2, path) == WRITTEN.entries;
    assert MergedEntries(WRITTEN.entries, GENERATED, 3, path) == SAVED.entries;
    MergedMapping(WRITTEN, GENERATED, path);
    NothingToDrop(SAVED.entries, GENERATED.entries);
  }

  /** Saving twice is not always saving once.  In the file the password is blank and stands before the user name, which
      the server is known by; the first save fills it in, and now the server is known by the password.  So the second
      save does not recognize it, and puts a new node in its place. */
  lemma SecondSaveDiffers()
    ensures Generated(WithServer(GENERATED))
    ensures var once := Merged(WithServer(WRITTEN), WithServer(GENERATED), []);
            once == WithServer(SAVED) && Merged(once, WithServer(GENERATED), []) == WithServer(GENERATED) != once
  {
    hide Trim, Ordered, Identity, MergedElement;
    ServersKnownBy();
    ServerIsGenerated();
    OnlyCandidate(WRITTEN, GENERATED);
    FirstSave();
    MergedServer(WRITTEN, GENERATED);
    OnlyCandidate(SAVED, GENERATED);
    DifferentServers();
    MergedServer(SAVED, GENERATED);
  }

  lemma ServerIsGenerated()
    ensures Generated(WithServer(GENERATED))
  {
    hide Trim;
    PlainText();
    PlainNames();
    var relay := Under("ice-servers", List([GENERATED]));
    assert Generated(URLS) && Generated(GENERATED);
    UnderGenerated("ice-servers", List([GENERATED]));
    UnderGenerated("live-media-relay", relay);
    UnderGenerated("codex", Under("live-media-relay", relay));
  }

  lemma UnderGenerated(key: string, node: Node)
    requires Generated(node) && Trim(key) != ""
    ensures Generated(Under(key, node))
  {
    hide Trim;
  }

  lemma PlainNames()
    ensures forall s :: s in ["codex", "live-media-relay", "ice-servers"] ==> Trim(s) == s
  {
  }

  lemma DifferentServers()
    ensures !StructurallyEqual(SAVED, GENERATED) && WithServer(SAVED) != WithServer(GENERATED)
    ensures "credential" + "=" + "pass" != "username" + "=" + "user"
  {
    hide Trim;
    PlainText();
    assert "credential"[0] != "urls"[0];
    assert ("credential" + "=" + "pass")[0] != ("username" + "=" + "user")[0];
    assert SAVED.entries[0].key.text == "credential" && GENERATED.entries[0].key.text == "urls";
    assert !StructurallyEqual(SAVED.entries[0].key, GENERATED.entries[0].key);
  }

  // ----- a file that the second save leaves alone although its elements change places -----

  function Pair(k: string, v: string, l: string, w: string): Node {
    Map([Entry(Text(k), Text(v)), Entry(Text(l), Text(w))])
  }

  const FIRST: Node := Pair("z", "q", "x", "v")
  const SECOND: Node := Pair("z", "", "X", "v")
  const WANTED: Node := Pair("x", "v", "z", "q")

  lemma PairsKnownBy()
    ensures Identity(FIRST) == "z" + "=" + "q" && Identity(SECOND) == Identity(WANTED) == "x" + "=" + "v"
  {
    hide Trim, ToLower, FirstScalar, Identity, NoIdentityKey;
    PlainText();
    PlainKey("x");
    PlainKey("z");
    UpperX();
    KnownBy(FIRST, 0);
    KnownBy(SECOND, 1);
    KnownBy(WANTED, 0);
  }

  lemma UpperX()
    ensures Trim("X") == "X" && ToLower("X") == "x" && (NoIdentityKey("x") ==> NoIdentityKey("X"))
  {
  }

  /** The first generated element finds the second one of the file, and the second finds none. */
  lemma ChangePlaces()
    ensures Picks([FIRST, SECOND], [WANTED, SECOND], 2) == [Some(1), None]
  {
    hide Trim, Identity;
    PairsKnownBy();
    assert ("z" + "=" + "q")[0] != ("x" + "=" + "v")[0];
    PlainText();
    var m := [FIRST, SECOND];
    assert Used(2, []) == [false, false];
    assert FirstWanted(m, [false, false], WANTED, true, 2) == Some(1);
    assert Picks(m, [WANTED, SECOND], 1) == [Some(1)];
    assert Used(2, [Some(1)]) == [false, true];
    NoneWanted(m, [false, true], SECOND, true, 2);
    assert !StructurallyEqual(FIRST.entries[0].value, SECOND.entries[0].value);
    NoneWanted(m, [false, true], SECOND, false, 2);
  }

  const MERGED: seq<Entry> := [Entry(Text("z"), Text("q")), Entry(Text("X"), Text("v")), Entry(Text("x"), Text("v"))]

  lemma SecondMerged(path: Path)
    ensures Merged(SECOND, WANTED, path) == Map(MERGED)
  {
    hide Trim, Dotted;
    FindKeyNone(SECOND.entries, "x");
    var added := SECOND.entries + [Entry(Text("x"), Text("v"))];
    FindKeyIs(added, "z", 0);
    assert MergedEntries(SECOND.entries, WANTED, 0, path) == SECOND.entries;
    assert MergedEntries(SECOND.entries, WANTED, 1, path) == added;
    assert MergedEntries(SECOND.entries, WANTED, 2, path) == MERGED;
    MergedMapping(SECOND, WANTED, path);
  }

  lemma SecondBecomesFirst(path: Path)
    ensures MergedElement(SECOND, WANTED, path) == FIRST
  {
    hide Trim, Merged;
    PlainText();
    UpperX();
    SecondMerged(path);
    assert MERGED[..2][..1][..0] == [] && MERGED[..2][..1] == [MERGED[0]] && MERGED[..2] == [MERGED[0], MERGED[1]];
    assert HasTrimmedKey(WANTED.entries, "z") && HasTrimmedKey(WANTED.entries, "x") && !HasTrimmedKey(WANTED.entries, "X") by {
      assert Trim(WANTED.entries[0].key.text) == "x" && Trim(WANTED.entries[1].key.text) == "z";
    }
    hide HasTrimmedKey;
    assert KeptEntries(MERGED[..2][..1], WANTED.entries) == [MERGED[0]];
    assert KeptEntries(MERGED[..2], WANTED.entries) == [MERGED[0]];
    assert KeptEntries(MERGED, WANTED.entries) == FIRST.entries;
  }

  lemma PairIsGenerated(k: string, v: string, l: string, w: string)
    requires k != l && Trim(k) != "" && Trim(l) != ""
    ensures Generated(Pair(k, v, l, w))
  {
    hide Trim;
  }

  /** Being settled is sufficient for saving twice to be saving once, and not necessary: what replaces the first element
      here is made of the second one, and comes out as the first one was. */
  lemma MovedButSteady(path: Path)
    ensures Generated(List([WANTED, SECOND]))
    ensures Merged(List([FIRST, SECOND]), List([WANTED, SECOND]), path) == List([FIRST, SECOND])
    ensures !Settled(List([FIRST, SECOND]), List([WANTED, SECOND]))
  {
    hide MergedElement, Merged, Picks, Trim;
    PlainText();
    UpperX();
    PairIsGenerated("x", "v", "z", "q");
    PairIsGenerated("z", "", "X", "v");
    ChangePlaces();
    SecondBecomesFirst(path);
    var m, g := [FIRST, SECOND], [WANTED, SECOND];
    MergedList(m, g, path);
    assert seq(2, i requires 0 <= i < 2 => Placed(m, g, path, i)) == [FIRST, SECOND];
    assert !OwnPlace(m, g, 0);
  }
}
