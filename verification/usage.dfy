/**
 * Usage detection: whether a virtual machine (or a running instance) refers
 * to the attachment definition `fullName` = `namespace/name` with short name
 * `name`, through its structured network list or its network annotation.
 */
module Usage {
  import opened Wrappers
  import opened Strings

  /** One entry of the pod-template network list; only a named multus attachment can match. */
  datatype NetworkEntry = NetworkEntry(multusNetworkName: Option<string>)

  /**
   * The fields of a workload the usage check reads: its identity, the
   * template's network list (absent when missing or not a list) and the
   * template's network annotation (absent when missing or not a string).
   */
  datatype Workload = Workload(
    namespace: string,
    name: string,
    networks: Option<seq<NetworkEntry>>,
    networksAnnotation: Option<string>)

  /** A reference names the network by full name, by short name, or by any `.../shortName`. */
  predicate NameMatches(reference: string, fullName: string, shortName: string) {
    reference == fullName || reference == shortName || HasSuffix(reference, "/" + shortName)
  }

  /** Declarative meaning of "the structured network list refers to the network". */
  ghost predicate ListedInNetworks(w: Workload, fullName: string, shortName: string) {
    && w.networks.Some?
    && exists i :: 0 <= i < |w.networks.value| && ReferenceMatches(w.networks.value[i], fullName, shortName)
  }

  predicate ReferenceMatches(e: NetworkEntry, fullName: string, shortName: string) {
    e.multusNetworkName.Some? && NameMatches(e.multusNetworkName.value, fullName, shortName)
  }

  /** Declarative meaning of "some trimmed comma-separated annotation token refers to the network". */
  ghost predicate ListedInAnnotation(w: Workload, fullName: string, shortName: string) {
    && w.networksAnnotation.Some?
    && w.networksAnnotation.value != ""
    && var tokens := Split(w.networksAnnotation.value, ',');
       exists i :: 0 <= i < |tokens| && NameMatches(TrimSpace(tokens[i]), fullName, shortName)
  }

  /** Scan of the structured network list, stopping at the first match. */
  function AnyEntryMatches(entries: seq<NetworkEntry>, fullName: string, shortName: string): (b: bool)
    ensures b <==> exists i :: 0 <= i < |entries| && ReferenceMatches(entries[i], fullName, shortName)
  {
    if entries == [] then false
    else ReferenceMatches(entries[0], fullName, shortName) || AnyEntryMatches(entries[1..], fullName, shortName)
  }

  /** The annotation tokens with their surrounding whitespace trimmed, in order. */
  function TrimAll(tokens: seq<string>): (refs: seq<string>)
    ensures |refs| == |tokens|
    ensures forall i :: 0 <= i < |tokens| ==> refs[i] == TrimSpace(tokens[i])
  {
    if tokens == [] then [] else [TrimSpace(tokens[0])] + TrimAll(tokens[1..])
  }

  /** Scan of the trimmed annotation tokens, stopping at the first match. */
  function AnyNameMatches(refs: seq<string>, fullName: string, shortName: string): (b: bool)
    ensures b <==> exists i :: 0 <= i < |refs| && NameMatches(refs[i], fullName, shortName)
  {
    if refs == [] then false
    else NameMatches(refs[0], fullName, shortName) || AnyNameMatches(refs[1..], fullName, shortName)
  }

  /**
   * The usage predicate: the list is inspected first, then the annotation,
   * only when it is non-empty. `ObjectUsesNetworkMeaning` states which
   * references count.
   */
  function ObjectUsesNetwork(w: Workload, fullName: string, shortName: string): (b: bool)
    ensures w.networks.None? && w.networksAnnotation.GetOr("") == "" ==> !b
  {
    (w.networks.Some? && AnyEntryMatches(w.networks.value, fullName, shortName))
    || (var ann := w.networksAnnotation.GetOr("");
        ann != "" && AnyNameMatches(TrimAll(Split(ann, ',')), fullName, shortName))
  }

  /** A workload uses the network exactly when its network list or its annotation refers to it. */
  lemma ObjectUsesNetworkMeaning(w: Workload, fullName: string, shortName: string)
    ensures ObjectUsesNetwork(w, fullName, shortName)
            <==> ListedInNetworks(w, fullName, shortName) || ListedInAnnotation(w, fullName, shortName)
  {
    var ann := w.networksAnnotation.GetOr("");
    if ann != "" {
      TrimmedTokensMatch(Split(ann, ','), fullName, shortName);
    }
  }

  /** Scanning the trimmed tokens finds a match exactly when some token matches once trimmed. */
  lemma TrimmedTokensMatch(tokens: seq<string>, fullName: string, shortName: string)
    ensures AnyNameMatches(TrimAll(tokens), fullName, shortName)
            <==> exists i :: 0 <= i < |tokens| && NameMatches(TrimSpace(tokens[i]), fullName, shortName)
  {
    var refs := TrimAll(tokens);
    if exists i :: 0 <= i < |tokens| && NameMatches(TrimSpace(tokens[i]), fullName, shortName) {
      var i :| 0 <= i < |tokens| && NameMatches(TrimSpace(tokens[i]), fullName, shortName);
      assert NameMatches(refs[i], fullName, shortName);
    }
  }

  /** A reported user: `kind` is `VM` or `VMI`. */
  datatype UserId = UserId(kind: string, namespace: string, name: string)

  /** The user reported for a workload of the given kind. */
  function Identifier(kind: string, w: Workload): UserId {
    UserId(kind, w.namespace, w.name)
  }

  /** How a user is written in the status: `kind/namespace/name`. */
  function Render(id: UserId): string {
    id.kind + "/" + id.namespace + "/" + id.name
  }

  /** Every user written out, in order. */
  function RenderAll(ids: seq<UserId>): (texts: seq<string>)
    ensures |texts| == |ids|
    ensures forall i :: 0 <= i < |ids| ==> texts[i] == Render(ids[i])
  {
    if ids == [] then [] else [Render(ids[0])] + RenderAll(ids[1..])
  }

  /** What the scan reports for one workload: the workload when it uses the network, nothing otherwise. */
  function Reported(kind: string, w: Workload, fullName: string, shortName: string): seq<UserId> {
    if ObjectUsesNetwork(w, fullName, shortName) then [Identifier(kind, w)] else []
  }

  /** The workloads in `ws` that use the network, in list order; `UsersMeaning` states which. */
  function Users(kind: string, ws: seq<Workload>, fullName: string, shortName: string): (users: seq<UserId>)
    ensures |users| <= |ws|
  {
    if ws == [] then [] else Reported(kind, ws[0], fullName, shortName) + Users(kind, ws[1..], fullName, shortName)
  }

  /**
   * The user list is sound and complete: every workload that uses the
   * network is reported, every report names one, and the list is empty
   * exactly when no workload uses the network.
   */
  lemma {:induction false} UsersMeaning(kind: string, ws: seq<Workload>, fullName: string, shortName: string)
    ensures var users := Users(kind, ws, fullName, shortName);
      && (forall i :: 0 <= i < |ws| && ObjectUsesNetwork(ws[i], fullName, shortName) ==> Identifier(kind, ws[i]) in users)
      && (forall u :: u in users ==>
            exists i :: 0 <= i < |ws| && ObjectUsesNetwork(ws[i], fullName, shortName) && u == Identifier(kind, ws[i]))
      && (users == [] <==> forall i :: 0 <= i < |ws| ==> !ObjectUsesNetwork(ws[i], fullName, shortName))
  {
    if ws != [] {
      UsersMeaning(kind, ws[1..], fullName, shortName);
      assert forall i :: 1 <= i < |ws| ==> ws[i] == ws[1..][i - 1];
    }
  }

  /** Users of a concatenation are the users of each part, in order. */
  lemma {:induction false} UsersConcat(kind: string, a: seq<Workload>, b: seq<Workload>, fullName: string, shortName: string)
    ensures Users(kind, a + b, fullName, shortName) == Users(kind, a, fullName, shortName) + Users(kind, b, fullName, shortName)
  {
    if a != [] {
      var head := Reported(kind, a[0], fullName, shortName);
      assert (a + b)[0] == a[0];
      assert (a + b)[1..] == a[1..] + b;
      assert Users(kind, a + b, fullName, shortName) == head + Users(kind, a[1..] + b, fullName, shortName);
      assert Users(kind, a, fullName, shortName) == head + Users(kind, a[1..], fullName, shortName);
      UsersConcat(kind, a[1..], b, fullName, shortName);
    } else {
      assert a + b == b;
    }
  }

  /**
   * Because the full name is `namespace/shortName`, a reference equal to the
   * full name is already a `/shortName` suffix match, so the full-name test
   * never decides a match on its own.
   */
  lemma FullNameIsSuffixMatch(namespace: string, shortName: string, reference: string)
    ensures reference == namespace + "/" + shortName ==> HasSuffix(reference, "/" + shortName)
    ensures NameMatches(reference, namespace + "/" + shortName, shortName)
            <==> reference == shortName || HasSuffix(reference, "/" + shortName)
  {
    if reference == namespace + "/" + shortName {
      assert reference[|reference| - |"/" + shortName|..] == "/" + shortName;
    }
  }

  /** `foo/bar` refers to the short name `bar`, `foobar` does not. */
  lemma SuffixMatchNeedsSlash()
    ensures NameMatches("foo/bar", "default/bar", "bar")
    ensures !NameMatches("foobar", "default/bar", "bar")
  {
    assert "foo/bar"[3..] == "/bar";
    assert "foobar"[2..] != "/bar" by { assert "foobar"[2..][0] == 'o'; }
  }

  /**
   * An annotation written as comma-joined tokens is detected as soon as one
   * token, once trimmed, refers to the network.
   */
  lemma AnnotationTokenIsDetected(w: Workload, tokens: seq<string>, i: nat, fullName: string, shortName: string)
    requires i < |tokens|
    requires forall k :: 0 <= k < |tokens| ==> ',' !in tokens[k]
    requires w.networksAnnotation == Some(Join(tokens, ","))
    requires Join(tokens, ",") != ""
    requires NameMatches(TrimSpace(tokens[i]), fullName, shortName)
    ensures ObjectUsesNetwork(w, fullName, shortName)
  {
    SplitJoin(tokens, ',');
    assert Split(w.networksAnnotation.value, ',')[i] == tokens[i];
    ObjectUsesNetworkMeaning(w, fullName, shortName);
  }
}
