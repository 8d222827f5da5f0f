/** Record and enum types shared by the commands (src/cmd/lib.rs). */
module CmdLib {
  import opened Results
  import opened Numeric
  import Namespace

  /**
   * The serialisable copy of a node's metadata. The field types keep the
   * source's widths: versions, lengths and child counts are 32-bit, zxids,
   * times and the owner session 64-bit.
   */
  datatype TabledStat = TabledStat(
    czxid: i64,
    mzxid: i64,
    ctime: i64,
    mtime: i64,
    version: i32,
    cversion: i32,
    aversion: i32,
    ephemeralOwner: i64,
    dataLength: i32,
    numChildren: i32,
    pzxid: i64)

  /** The crate's record rebuilt from the copy; the partner of `FromStat`. */
  function ToStat(t: TabledStat): Namespace.Stat {
    Namespace.Stat(t.czxid, t.mzxid, t.ctime, t.mtime, t.version, t.cversion,
                   t.aversion, t.ephemeralOwner, t.dataLength, t.numChildren, t.pzxid)
  }

  /** `From<Stat> for TabledStat`: copies the eleven fields one for one. */
  function FromStat(s: Namespace.Stat): (t: TabledStat)
    ensures t.czxid == s.czxid && t.mzxid == s.mzxid && t.ctime == s.ctime && t.mtime == s.mtime
    ensures t.version == s.version && t.cversion == s.cversion && t.aversion == s.aversion
    ensures t.ephemeralOwner == s.ephemeralOwner && t.dataLength == s.dataLength
    ensures t.numChildren == s.numChildren && t.pzxid == s.pzxid
    ensures ToStat(t) == s
  {
    TabledStat(s.czxid, s.mzxid, s.ctime, s.mtime, s.version, s.cversion,
               s.aversion, s.ephemeralOwner, s.dataLength, s.numChildren, s.pzxid)
  }

  /** The conversion loses nothing: distinct records stay distinct. */
  lemma FromStatInjective(a: Namespace.Stat, b: Namespace.Stat)
    requires FromStat(a) == FromStat(b)
    ensures a == b
  {
    assert a == ToStat(FromStat(a));
  }

  /** And every copy comes from exactly one record. */
  lemma FromStatSurjective(t: TabledStat)
    ensures FromStat(ToStat(t)) == t
  {
  }

  /** `Format`: the output format selected with `--format`. */
  datatype Format = Table | Json | Yaml {

    /** Position in the declaration, which the derived `Ord` follows. */
    function Rank(): nat {
      match this
      case Table => 0
      case Json => 1
      case Yaml => 2
    }

    /** The name clap's derived `ValueEnum` accepts on the command line. */
    function ValueName(): string {
      match this
      case Table => "table"
      case Json => "json"
      case Yaml => "yaml"
    }
  }

  /** The derived `Ord`: declaration order. */
  predicate Less(a: Format, b: Format) {
    a.Rank() < b.Rank()
  }

  /** Looks a command-line value up among the variants' value names. */
  function FormatFromValueName(s: string): (r: Option<Format>)
    ensures r.Some? ==> r.value.ValueName() == s
  {
    if s == "table" then Some(Table)
    else if s == "json" then Some(Json)
    else if s == "yaml" then Some(Yaml)
    else None
  }

  /** Every variant's value name reads back as that variant. */
  lemma ValueNameRoundTrip(f: Format)
    ensures FormatFromValueName(f.ValueName()) == Some(f)
  {
  }

  /** There are exactly three formats, ordered Table < JSON < YAML, and `Less` is a strict total order. */
  lemma FormatOrder()
    ensures forall f: Format :: f.Rank() < 3
    ensures forall a: Format, b: Format :: a.Rank() == b.Rank() ==> a == b
    ensures Less(Table, Json) && Less(Json, Yaml)
    ensures forall a: Format :: !Less(a, a)
    ensures forall a: Format, b: Format, c: Format :: Less(a, b) && Less(b, c) ==> Less(a, c)
    ensures forall a: Format, b: Format :: a != b ==> Less(a, b) || Less(b, a)
  {
  }
}
