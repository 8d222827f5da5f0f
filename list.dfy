/**
 * Listing (src/cmd/list.rs): direct children, a recursive listing, and the
 * special case of a recursive listing of the root, whose children come back
 * as bare names and must be re-rooted before recursing; optionally each
 * listed key is paired with its value.
 */
module ListCmd {
  import opened Results
  import opened Strings
  import opened Namespace
  import opened Program

  /**
   * The absolute path of a child of the root, from its bare name: `"/{key}"`.
   * It starts with `/` and is one character longer than the name.
   */
  function Reroot(key: string): (path: string)
    ensures |path| == |key| + 1 && path[0] == '/' && path[1..] == key
  {
    "/" + key
  }

  /** The bare name of a root child, back from its absolute path. */
  function BareName(path: string): string
    requires |path| > 0 && path[0] == '/'
  {
    path[1..]
  }

  /** Re-rooting loses nothing, and distinct names give distinct paths. */
  lemma RerootRoundTrip(key: string)
    ensures BareName(Reroot(key)) == key
  {
  }

  lemma RerootInjective(a: string, b: string)
    requires Reroot(a) == Reroot(b)
    ensures a == b
  {
    assert a == Reroot(a)[1..];
  }

  /**
   * Whether a recursive listing takes the root branch (`root.trim() == "/"`):
   * exactly when the path is a single `/` with only whitespace around it.
   */
  predicate IsRoot(root: string): (b: bool)
    ensures b <==> exists i: nat :: TrimmedFrom(root, "/", i)
  {
    RootTrimmed(root);
    Trim(root) == "/"
  }

  lemma RootTrimmed(root: string)
    ensures Trim(root) == "/" <==> exists i: nat :: TrimmedFrom(root, "/", i)
  {
    forall i: nat | TrimmedFrom(root, "/", i) ensures Trim(root) == "/" {
      TrimUnique(root, "/", i);
    }
  }

  /** Padding around `/` does not hide the root. */
  lemma PaddedRootIsRoot(pre: string, post: string)
    requires AllWhitespace(pre) && AllWhitespace(post)
    ensures IsRoot(pre + "/" + post)
  {
    assert pre + "/" + post == pre + ("/" + post);
    TrimStartSkips(pre, "/" + post);
    TrimEndSkips("/", post);
  }

  /** The lists of the root's children, one after the other. */
  function Concat(lists: seq<seq<string>>): (r: seq<string>)
    decreases |lists|
  {
    if lists == [] then [] else Concat(lists[..|lists| - 1]) + lists[|lists| - 1]
  }

  /**
   * The root case over the bare names `keys`: the recursive listing of each
   * re-rooted name, in order, stopping at the first error.
   */
  function RootListing(zk: Service, keys: seq<string>): Result<seq<string>>
    decreases |keys|
  {
    if keys == [] then Ok([])
    else
      match RootListing(zk, keys[..|keys| - 1])
      case Err(e) => Err(e)
      case Ok(acc) =>
        match zk.childrenRecursive(Reroot(keys[|keys| - 1]))
        case Err(e) => Err(e)
        case Ok(children) => Ok(acc + children)
  }

  /** The listings of the re-rooted names, when none of them fails. */
  function Subtrees(zk: Service, keys: seq<string>): (r: seq<seq<string>>)
    requires forall i :: 0 <= i < |keys| ==> zk.childrenRecursive(Reroot(keys[i])).Ok?
    ensures |r| == |keys|
    ensures forall i :: 0 <= i < |keys| ==> r[i] == zk.childrenRecursive(Reroot(keys[i])).value
  {
    seq(|keys|, i requires 0 <= i < |keys| => zk.childrenRecursive(Reroot(keys[i])).value)
  }

  /**
   * The root listing succeeds exactly when every re-rooted name can be
   * listed, and is then the concatenation of those listings in order.
   */
  lemma {:induction false} RootListingOk(zk: Service, keys: seq<string>)
    ensures RootListing(zk, keys).Ok? <==>
              forall i :: 0 <= i < |keys| ==> zk.childrenRecursive(Reroot(keys[i])).Ok?
    ensures RootListing(zk, keys).Ok? ==> RootListing(zk, keys).value == Concat(Subtrees(zk, keys))
    decreases |keys|
  {
    if keys != [] {
      var init := keys[..|keys| - 1];
      RootListingOk(zk, init);
      assert forall i :: 0 <= i < |init| ==> init[i] == keys[i];
      if RootListing(zk, keys).Ok? {
        var sub := Subtrees(zk, keys);
        assert sub[..|sub| - 1] == Subtrees(zk, init);
      }
    }
  }

  /** When the root listing fails, it fails with the error of the first name that cannot be listed. */
  lemma {:induction false} RootListingErr(zk: Service, keys: seq<string>)
    requires RootListing(zk, keys).Err?
    ensures exists i :: && 0 <= i < |keys|
                        && zk.childrenRecursive(Reroot(keys[i])) == Err(RootListing(zk, keys).error)
                        && forall j :: 0 <= j < i ==> zk.childrenRecursive(Reroot(keys[j])).Ok?
    decreases |keys|
  {
    var init := keys[..|keys| - 1];
    assert forall i :: 0 <= i < |init| ==> init[i] == keys[i];
    if RootListing(zk, init).Err? {
      RootListingErr(zk, init);
    } else {
      RootListingOk(zk, init);
      assert zk.childrenRecursive(Reroot(keys[|keys| - 1])) == Err(RootListing(zk, keys).error);
    }
  }

  /** What `do_list` returns: the reference the method is proved against. */
  function Listed(zk: Service, root: string, recursive: bool): Result<seq<string>> {
    if !recursive then zk.children(root)
    else if !IsRoot(root) then zk.childrenRecursive(root)
    else
      match zk.children(root)
      case Err(e) => Err(e)
      case Ok(keys) => RootListing(zk, keys)
  }

  /**
   * The three modes of `do_list`: non-recursive is exactly the children of
   * `root`; recursive on a path that does not trim to `/` is exactly the
   * crate's recursive listing; recursive on the root enumerates the root's
   * children (asked for with the untrimmed path) and lists each re-rooted
   * name recursively, any error aborting the whole listing.
   */
  lemma ListedModes(zk: Service, root: string, recursive: bool)
    ensures !recursive ==> Listed(zk, root, recursive) == zk.children(root)
    ensures recursive && !IsRoot(root) ==> Listed(zk, root, recursive) == zk.childrenRecursive(root)
    ensures recursive && IsRoot(root) && zk.children(root).Err? ==>
              Listed(zk, root, recursive) == Err(zk.children(root).error)
    ensures recursive && IsRoot(root) && zk.children(root).Ok? ==>
              var keys := zk.children(root).value;
              && (Listed(zk, root, recursive).Ok? <==>
                    forall i :: 0 <= i < |keys| ==> zk.childrenRecursive(Reroot(keys[i])).Ok?)
              && (Listed(zk, root, recursive).Ok? ==>
                    Listed(zk, root, recursive).value == Concat(Subtrees(zk, keys)))
  {
    if recursive && IsRoot(root) && zk.children(root).Ok? {
      RootListingOk(zk, zk.children(root).value);
    }
  }

  /** An error in the root's enumeration of a prefix is the error of the whole enumeration. */
  lemma {:induction false} RootListingErrExtends(zk: Service, keys: seq<string>, n: nat)
    requires n <= |keys| && RootListing(zk, keys[..n]).Err?
    ensures RootListing(zk, keys) == RootListing(zk, keys[..n])
    decreases |keys| - n
  {
    if n < |keys| {
      assert keys[..n + 1][..n] == keys[..n];
      RootListingErrExtends(zk, keys, n + 1);
    } else {
      assert keys[..n] == keys;
    }
  }

  /**
   * The root branch of `do_list`: for each bare name, in order, list the
   * re-rooted path recursively and append the result; the first error is
   * returned.
   */
  method ListRootChildren(zk: Service, keys: seq<string>) returns (rc: Result<seq<string>>)
    ensures rc == RootListing(zk, keys)
  {
    var acc: seq<string> := [];
    var i := 0;
    while i < |keys|
      invariant 0 <= i <= |keys|
      invariant RootListing(zk, keys[..i]) == Ok(acc)
    {
      assert keys[..i + 1][..i] == keys[..i];
      var children := zk.childrenRecursive(Reroot(keys[i]));
      if children.Err? {
        RootListingErrExtends(zk, keys, i + 1);
        return Err(children.error);
      }
      acc := acc + children.value;
      i := i + 1;
    }
    assert keys[..i] == keys;
    rc := Ok(acc);
  }

  /** `do_list`. */
  method DoList(zk: Service, root: string, recursive: bool) returns (rc: Result<seq<string>>)
    ensures rc == Listed(zk, root, recursive)
  {
    if !recursive {
      rc := zk.children(root);
    } else if !IsRoot(root) {
      rc := zk.childrenRecursive(root);
    } else {
      var top := zk.children(root);
      if top.Err? {
        return Err(top.error);
      }
      rc := ListRootChildren(zk, top.value);
    }
  }

  /** `ListResultWithValue`. */
  datatype KeyValue = KeyValue(key: string, value: string)

  /** `get_data` of `key` succeeds and its bytes are valid UTF-8. */
  predicate Readable(zk: Service, utf8: Utf8Decoder, key: string) {
    zk.getData(key, false).Ok? && utf8(zk.getData(key, false).value.data).Some?
  }

  /** The decoded value of a readable key. */
  function ValueOf(zk: Service, utf8: Utf8Decoder, key: string): string
    requires Readable(zk, utf8, key)
  {
    utf8(zk.getData(key, false).value.data).value
  }

  /**
   * The `map` of `do_list_with_value`: pairs each key with its value, in
   * order. The source unwraps both the fetch and the decoding, so a key
   * that is not readable panics; here that is a precondition.
   */
  function Hydrate(zk: Service, utf8: Utf8Decoder, keys: seq<string>): (r: seq<KeyValue>)
    requires forall i :: 0 <= i < |keys| ==> Readable(zk, utf8, keys[i])
    ensures |r| == |keys|
    ensures forall i :: 0 <= i < |keys| ==> r[i].key == keys[i] && r[i].value == ValueOf(zk, utf8, keys[i])
  {
    seq(|keys|, i requires 0 <= i < |keys| => KeyValue(keys[i], ValueOf(zk, utf8, keys[i])))
  }

  /**
   * `do_list_with_value`: the listing's error if it fails, otherwise one
   * entry per listed key, in the listing's order.
   */
  method DoListWithValue(zk: Service, utf8: Utf8Decoder, root: string, recursive: bool)
    returns (rc: Result<seq<KeyValue>>)
    requires Listed(zk, root, recursive).Ok? ==>
               var keys := Listed(zk, root, recursive).value;
               forall i :: 0 <= i < |keys| ==> Readable(zk, utf8, keys[i])
    ensures rc.Ok? <==> Listed(zk, root, recursive).Ok?
    ensures rc.Err? ==> rc.error == Listed(zk, root, recursive).error
    ensures rc.Ok? ==>
              var keys := Listed(zk, root, recursive).value;
              && |rc.value| == |keys|
              && forall i :: 0 <= i < |keys| ==>
                   rc.value[i].key == keys[i] && rc.value[i].value == ValueOf(zk, utf8, keys[i])
  {
    var keys := DoList(zk, root, recursive);
    if keys.Err? {
      return Err(keys.error);
    }
    rc := Ok(Hydrate(zk, utf8, keys.value));
  }

  /** What `App::list` hands to the formatter. */
  datatype ListOutput = Keys(keys: seq<string>) | KeysWithValues(entries: seq<KeyValue>)

  /**
   * `App::list`, without the rendering: connect with the raw host option and
   * the timeout, then list with or without values. A connection error is the
   * result.
   */
  method List(cli: Cli, connect: (string, Duration) -> Result<Service>, utf8: Utf8Decoder,
              root: string, recursive: bool, showValue: bool)
    returns (rc: Result<ListOutput>)
    requires connect(cli.zooHosts, GetTimeout(cli)).Ok? && showValue ==>
               var zk := connect(cli.zooHosts, GetTimeout(cli)).value;
               Listed(zk, root, recursive).Ok? ==>
                 var keys := Listed(zk, root, recursive).value;
                 forall i :: 0 <= i < |keys| ==> Readable(zk, utf8, keys[i])
    ensures connect(cli.zooHosts, GetTimeout(cli)).Err? ==>
              rc == Err(connect(cli.zooHosts, GetTimeout(cli)).error)
    ensures connect(cli.zooHosts, GetTimeout(cli)).Ok? ==>
              var zk := connect(cli.zooHosts, GetTimeout(cli)).value;
              && (rc.Ok? <==> Listed(zk, root, recursive).Ok?)
              && (rc.Err? ==> rc.error == Listed(zk, root, recursive).error)
              && (rc.Ok? && !showValue ==> rc.value == Keys(Listed(zk, root, recursive).value))
              && (rc.Ok? && showValue ==>
                    rc.value == KeysWithValues(Hydrate(zk, utf8, Listed(zk, root, recursive).value)))
  {
    var session := connect(cli.zooHosts, GetTimeout(cli));
    if session.Err? {
      return Err(session.error);
    }
    var zk := session.value;
    if showValue {
      var entries := DoListWithValue(zk, utf8, root, recursive);
      if entries.Err? {
        return Err(entries.error);
      }
      assert entries.value == Hydrate(zk, utf8, Listed(zk, root, recursive).value);
      rc := Ok(KeysWithValues(entries.value));
    } else {
      var keys := DoList(zk, root, recursive);
      if keys.Err? {
        return Err(keys.error);
      }
      rc := Ok(Keys(keys.value));
    }
  }
}
