/**
 * Reading one node (src/cmd/get.rs): the record built from `get_data`, and
 * its hand-written `Tabled` projection onto thirteen named columns.
 */
module GetCmd {
  import opened Results
  import opened Numeric
  import opened Namespace
  import opened CmdLib
  import opened Program

  /** `GetResult`. */
  datatype GetResult = GetResult(key: string, value: string, stat: TabledStat)

  /** `Tabled::LENGTH`. */
  const Length: nat := 13

  /** The names of the eleven stat columns, in column order. */
  const StatNames: seq<string> :=
    ["czxid", "mzxid", "ctime", "mtime", "version", "cversion",
     "aversion", "ephemeral_owner", "data_length", "num_children", "pzxid"]

  /** `Tabled::headers`: the column names. */
  function Headers(): (h: seq<string>)
    ensures |h| == Length
  {
    ["key", "value"] + StatNames
  }

  /** The stat field a column name stands for. */
  function StatField(s: TabledStat, name: string): Option<int> {
    if name == "czxid" then Some(s.czxid as int)
    else if name == "mzxid" then Some(s.mzxid as int)
    else if name == "ctime" then Some(s.ctime as int)
    else if name == "mtime" then Some(s.mtime as int)
    else if name == "version" then Some(s.version as int)
    else if name == "cversion" then Some(s.cversion as int)
    else if name == "aversion" then Some(s.aversion as int)
    else if name == "ephemeral_owner" then Some(s.ephemeralOwner as int)
    else if name == "data_length" then Some(s.dataLength as int)
    else if name == "num_children" then Some(s.numChildren as int)
    else if name == "pzxid" then Some(s.pzxid as int)
    else None
  }

  /** The stat fields in column order. */
  function StatValues(s: TabledStat): (v: seq<int>)
    ensures |v| == |StatNames|
  {
    [s.czxid as int, s.mzxid as int, s.ctime as int, s.mtime as int,
     s.version as int, s.cversion as int, s.aversion as int,
     s.ephemeralOwner as int, s.dataLength as int, s.numChildren as int, s.pzxid as int]
  }

  /** Each number rendered with `to_string`. */
  function Decimals(v: seq<int>): seq<string> {
    seq(|v|, i requires 0 <= i < |v| => IntToString(v[i]))
  }

  /** `Tabled::fields`: one cell per column, the stat fields in decimal. */
  function Fields(g: GetResult): (f: seq<string>)
    ensures |f| == Length && f[0] == g.key && f[1] == g.value
  {
    [g.key, g.value] + Decimals(StatValues(g.stat))
  }

  /** The column names are pairwise distinct. */
  lemma HeadersDistinct()
    ensures forall i, j :: 0 <= i < j < Length ==> Headers()[i] != Headers()[j]
  {
  }

  /** Each stat column's name stands for the field in its position. */
  lemma StatFieldNamed(s: TabledStat, j: nat)
    requires j < |StatNames|
    ensures StatField(s, StatNames[j]) == Some(StatValues(s)[j])
  {
    if j == 0 { assert StatNames[0] == "czxid"; }
    else if j == 1 { assert StatNames[1] == "mzxid"; }
    else if j == 2 { assert StatNames[2] == "ctime"; }
    else if j == 3 { assert StatNames[3] == "mtime"; }
    else if j == 4 { assert StatNames[4] == "version"; }
    else if j == 5 { assert StatNames[5] == "cversion"; }
    else if j == 6 { assert StatNames[6] == "aversion"; }
    else if j == 7 { assert StatNames[7] == "ephemeral_owner"; }
    else if j == 8 { assert StatNames[8] == "data_length"; }
    else if j == 9 { assert StatNames[9] == "num_children"; }
    else { assert StatNames[10] == "pzxid"; }
  }

  /**
   * Beyond the key and the value, each cell is the decimal rendering of the
   * stat field its column is named after.
   */
  lemma FieldsMatchHeaders(g: GetResult, k: nat)
    requires 2 <= k < Length
    ensures StatField(g.stat, Headers()[k]).Some?
    ensures Fields(g)[k] == IntToString(StatField(g.stat, Headers()[k]).value)
  {
    StatFieldNamed(g.stat, k - 2);
    assert Headers()[k] == StatNames[k - 2];
    assert Fields(g)[k] == Decimals(StatValues(g.stat))[k - 2];
  }

  /** Reads a row back into a record; the partner of `Fields`. */
  function FromFields(f: seq<string>): Option<GetResult> {
    if |f| != Length then None
    else
      var czxid, mzxid, ctime, mtime := ParseI64(f[2]), ParseI64(f[3]), ParseI64(f[4]), ParseI64(f[5]);
      var version, cversion, aversion := ParseI32(f[6]), ParseI32(f[7]), ParseI32(f[8]);
      var owner, dataLength, numChildren, pzxid := ParseI64(f[9]), ParseI32(f[10]), ParseI32(f[11]), ParseI64(f[12]);
      if && czxid.Some? && mzxid.Some? && ctime.Some? && mtime.Some?
         && version.Some? && cversion.Some? && aversion.Some?
         && owner.Some? && dataLength.Some? && numChildren.Some? && pzxid.Some?
      then
        Some(GetResult(f[0], f[1], TabledStat(
          czxid.value, mzxid.value, ctime.value, mtime.value, version.value, cversion.value,
          aversion.value, owner.value, dataLength.value, numChildren.value, pzxid.value)))
      else None
  }

  /** The row loses nothing: it reads back as the record it came from. */
  lemma FieldsRoundTrip(g: GetResult)
    ensures FromFields(Fields(g)) == Some(g)
  {
    CellsParse(g);
  }

  /** Each stat cell parses back to its field. */
  lemma CellsParse(g: GetResult)
    ensures forall j :: 2 <= j < Length ==> ParseInt(Fields(g)[j]) == Some(StatValues(g.stat)[j - 2])
  {
    var f, v := Fields(g), StatValues(g.stat);
    forall j | 2 <= j < Length
      ensures ParseInt(f[j]) == Some(v[j - 2])
    {
      assert f[j] == IntToString(v[j - 2]);
      IntToStringRoundTrip(v[j - 2]);
    }
  }

  /** Distinct records give distinct rows. */
  lemma FieldsInjective(a: GetResult, b: GetResult)
    requires Fields(a) == Fields(b)
    ensures a == b
  {
    FieldsRoundTrip(a);
    FieldsRoundTrip(b);
  }

  /**
   * `App::get`, without the rendering: connect, fetch the node (passing the
   * watch flag on), and build a one-record result. Decoding the value as
   * UTF-8 is unwrapped in the source, so invalid data is a precondition.
   */
  function Get(cli: Cli, connect: (string, Duration) -> Result<Service>, utf8: Utf8Decoder,
               key: string, watch: bool): (rc: Result<seq<GetResult>>)
    requires connect(cli.zooHosts, GetTimeout(cli)).Ok? ==>
               var zk := connect(cli.zooHosts, GetTimeout(cli)).value;
               zk.getData(key, watch).Ok? ==> utf8(zk.getData(key, watch).value.data).Some?
    ensures connect(cli.zooHosts, GetTimeout(cli)).Err? ==>
              rc == Err(connect(cli.zooHosts, GetTimeout(cli)).error)
    ensures connect(cli.zooHosts, GetTimeout(cli)).Ok? ==>
              var fetched := connect(cli.zooHosts, GetTimeout(cli)).value.getData(key, watch);
              && (rc.Ok? <==> fetched.Ok?)
              && (rc.Err? ==> rc.error == fetched.error)
              && (rc.Ok? ==>
                    && |rc.value| == 1
                    && rc.value[0].key == key
                    && Some(rc.value[0].value) == utf8(fetched.value.data)
                    && ToStat(rc.value[0].stat) == fetched.value.stat)
  {
    match connect(cli.zooHosts, GetTimeout(cli))
    case Err(e) => Err(e)
    case Ok(zk) =>
      match zk.getData(key, watch)
      case Err(e) => Err(e)
      case Ok(node) =>
        Ok([GetResult(key, utf8(node.data).value, FromStat(node.stat))])
  }
}
