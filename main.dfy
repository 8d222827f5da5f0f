/**
 * The parts of the program entry point (src/main.rs) that carry logic:
 * splitting the host list, converting the timeout, and choosing what the
 * process prints and which exit code it ends with. Argument parsing itself
 * is clap's and is not modelled; `Cli` holds the parsed global options.
 */
module Program {
  import opened Results
  import opened Strings
  import opened Numeric
  import opened CmdLib

  /** The default of `--zoo-hosts`. */
  const DefaultZooHosts: string := "127.0.0.1:2181"

  /** The default of `--timeout`, in milliseconds. */
  const DefaultTimeout: u64 := 3000

  /** The parsed global options. */
  datatype Cli = Cli(format: Format, zooHosts: string, timeout: u64, quiet: bool)

  /** The options when none is given on the command line or in the environment. */
  const Defaults: Cli := Cli(Table, DefaultZooHosts, DefaultTimeout, false)

  /**
   * `Cli::get_zoo_hosts`: one entry per comma-separated segment of
   * `--zoo-hosts`, in order, each trimmed; empty segments are kept.
   */
  function GetZooHosts(cli: Cli): (hosts: seq<string>)
    ensures |hosts| == Count(cli.zooHosts, ',') + 1
    ensures forall i :: 0 <= i < |hosts| ==> hosts[i] == Trim(Split(cli.zooHosts, ',')[i])
    ensures forall i :: 0 <= i < |hosts| ==> IsTrimmed(hosts[i]) && ',' !in hosts[i]
  {
    var segments := Split(cli.zooHosts, ',');
    var hosts := seq(|segments|, i requires 0 <= i < |segments| => Trim(segments[i]));
    assert forall i :: 0 <= i < |hosts| ==> ',' !in hosts[i] by {
      forall i | 0 <= i < |hosts| ensures ',' !in hosts[i] {
        TrimKeepsAbsent(segments[i], ',');
      }
    }
    hosts
  }

  /** A host option without commas or surrounding whitespace is a single host, itself. */
  lemma SingleHost(cli: Cli)
    requires ',' !in cli.zooHosts && IsTrimmed(cli.zooHosts)
    ensures GetZooHosts(cli) == [cli.zooHosts]
  {
    SplitWithoutSeparator(cli.zooHosts, ',');
    TrimOfTrimmed(cli.zooHosts);
  }

  /** With the default option there is exactly one host, the default address. */
  lemma DefaultHosts()
    ensures GetZooHosts(Defaults) == [DefaultZooHosts]
  {
    SingleHost(Defaults);
  }

  /**
   * The hosts are the trims of pieces that contain no comma and join back,
   * with commas, to the option: nothing of it is dropped or reordered
   * except the whitespace around each address.
   */
  lemma ZooHostsSegments(cli: Cli)
    ensures exists pieces: seq<string> ::
              && Join(pieces, ',') == cli.zooHosts
              && |pieces| == |GetZooHosts(cli)|
              && (forall i :: 0 <= i < |pieces| ==> ',' !in pieces[i])
              && (forall i :: 0 <= i < |pieces| ==> GetZooHosts(cli)[i] == Trim(pieces[i]))
  {
    var pieces := Split(cli.zooHosts, ',');
    JoinSplit(cli.zooHosts, ',');
    assert Join(pieces, ',') == cli.zooHosts;
  }

  /** `std::time::Duration`: whole seconds and the nanoseconds below one second. */
  datatype Duration = Duration(secs: u64, nanos: nat)

  const NanosPerSec: nat := 1_000_000_000
  const NanosPerMilli: nat := 1_000_000
  const MillisPerSec: nat := 1000

  /** `Duration::as_millis`. */
  function AsMillis(d: Duration): nat {
    d.secs * MillisPerSec + d.nanos / NanosPerMilli
  }

  /**
   * `Cli::get_timeout`: `Duration::from_millis(timeout)`, a normalised
   * duration of exactly `timeout` milliseconds.
   */
  function GetTimeout(cli: Cli): (d: Duration)
    ensures d.nanos < NanosPerSec && d.nanos % NanosPerMilli == 0
    ensures AsMillis(d) == cli.timeout
  {
    Duration(cli.timeout / MillisPerSec, (cli.timeout % MillisPerSec) * NanosPerMilli)
  }

  /** Different timeouts give different durations. */
  lemma GetTimeoutInjective(a: Cli, b: Cli)
    requires GetTimeout(a) == GetTimeout(b)
    ensures a.timeout == b.timeout
  {
  }

  /** How the process ends: what it writes on standard output and its exit code. */
  datatype Termination = Termination(stdout: string, code: int)

  /**
   * The end of `main`. In quiet mode nothing is printed and the exit code is
   * 0 for `Ok` and 1 for `Err`. Otherwise the output or `Error, <message>`
   * is printed as one line and `main` returns normally, so the exit code is
   * 0 in both cases.
   */
  function Finish(cli: Cli, rc: Result<string>): (t: Termination)
    ensures cli.quiet ==> t.stdout == []
    ensures cli.quiet ==> (t.code == 0 <==> rc.Ok?) && (t.code == 1 <==> rc.Err?)
    ensures !cli.quiet ==> t.code == 0
    ensures !cli.quiet && rc.Ok? ==> t.stdout == rc.value + "\n"
    ensures !cli.quiet && rc.Err? ==> t.stdout == "Error, " + rc.error + "\n"
  {
    if cli.quiet then
      match rc
      case Ok(_) => Termination([], 0)
      case Err(_) => Termination([], 1)
    else
      match rc
      case Ok(out) => Termination(out + "\n", 0)
      case Err(err) => Termination("Error, " + err + "\n", 0)
  }

  /** Outside quiet mode a failed command is still reported with exit code 0. */
  lemma NonQuietFailureExitsZero(cli: Cli, e: string)
    requires !cli.quiet
    ensures Finish(cli, Err(e)).code == 0
    ensures Finish(cli, Err(e)).stdout[..7] == "Error, "
  {
  }
}
