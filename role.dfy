/**
 * Cluster-role discovery (src/cmd/role.rs): each configured server is sent
 * the four-letter diagnostic command `stat`, and its free-text answer is
 * classified by substring search.
 */
module RoleCmd {
  import opened Results
  import opened Strings
  import opened Program

  /** The role a server reports. */
  datatype Role = Follower | Leader | Standalone | Unknown {

    /** `Role::as_str`: the display name, which reads back as this role. */
    function AsStr(): (s: string)
      ensures RoleNamed(s) == Some(this)
    {
      match this
      case Follower => "Follower"
      case Leader => "Leader"
      case Standalone => "Standalone"
      case Unknown => "Unknown"
    }

    /** `Display::fmt`: what formatting the role appends to the formatter's buffer `out`. */
    function Fmt(out: string): (r: string)
      ensures |r| > |out| && r[..|out|] == out && r[|out|..] == AsStr()
    {
      out + AsStr()
    }
  }

  /** The role whose display name is `s`, if any; the partner of `AsStr`. */
  function RoleNamed(s: string): Option<Role> {
    if s == "Follower" then Some(Follower)
    else if s == "Leader" then Some(Leader)
    else if s == "Standalone" then Some(Standalone)
    else if s == "Unknown" then Some(Unknown)
    else None
  }

  /** `as_str` is injective. */
  lemma AsStrInjective(a: Role, b: Role)
    requires a.AsStr() == b.AsStr()
    ensures a == b
  {
    assert RoleNamed(a.AsStr()) == Some(a) && RoleNamed(b.AsStr()) == Some(b);
  }

  /** What `Display` writes determines the role. */
  lemma FmtInjective(a: Role, b: Role, out: string)
    requires a.Fmt(out) == b.Fmt(out)
    ensures a == b
  {
    assert a.AsStr() == a.Fmt(out)[|out|..];
    AsStrInjective(a, b);
  }

  const ModeFollower: string := "Mode: follower"
  const ModeLeader: string := "Mode: leader"
  const ModeStandalone: string := "Mode: standalone"

  /**
   * `parse_srvr`: case-sensitive substring tests in the fixed order
   * follower, leader, standalone; the first that matches wins and a
   * response matching none is `Unknown`.
   */
  function ParseSrvr(buf: string): (r: Role)
    ensures r == Follower <==> Contains(buf, ModeFollower)
    ensures r == Leader <==> !Contains(buf, ModeFollower) && Contains(buf, ModeLeader)
    ensures r == Standalone <==>
              !Contains(buf, ModeFollower) && !Contains(buf, ModeLeader) && Contains(buf, ModeStandalone)
    ensures r == Unknown <==>
              !Contains(buf, ModeFollower) && !Contains(buf, ModeLeader) && !Contains(buf, ModeStandalone)
  {
    if Find(buf, ModeFollower).Some? then Follower
    else if Find(buf, ModeLeader).Some? then Leader
    else if Find(buf, ModeStandalone).Some? then Standalone
    else Unknown
  }

  /** A response naming several modes is classified by the first in priority order. */
  lemma FollowerWinsOverLeader(before: string, between: string, after: string)
    ensures ParseSrvr(before + ModeLeader + between + ModeFollower + after) == Follower
  {
    var buf := before + ModeLeader + between + ModeFollower + after;
    var k := |before| + |ModeLeader| + |between|;
    assert buf[k..k + |ModeFollower|] == ModeFollower;
    assert OccursAt(buf, ModeFollower, k);
  }

  /** The diagnostic command written to each server. */
  const StatCommand: string := "stat"

  /** `RoleRow`: one line of the report. */
  datatype RoleRow = RoleRow(host: string, role: Role)

  /**
   * The loop of `App::get_role`. For the i-th address of `hosts`,
   * `probe(i, address, StatCommand)` stands for the i-th connection the loop
   * opens: connecting to the address, writing the command and reading the
   * response until the server closes the connection. The position keeps
   * separate connections separate, so an address listed twice may answer
   * differently each time. An error at any of those steps ends the whole
   * call with that error and no rows.
   */
  method ProbeHosts(hosts: seq<string>, probe: (nat, string, string) -> Result<string>)
    returns (rc: Result<seq<RoleRow>>)
    ensures rc.Ok? <==> forall i :: 0 <= i < |hosts| ==> probe(i, hosts[i], StatCommand).Ok?
    ensures rc.Ok? ==>
              && |rc.value| == |hosts|
              && forall i :: 0 <= i < |hosts| ==>
                   rc.value[i] == RoleRow(hosts[i], ParseSrvr(probe(i, hosts[i], StatCommand).value))
    ensures rc.Err? ==>
              exists i :: && 0 <= i < |hosts|
                          && probe(i, hosts[i], StatCommand) == Err(rc.error)
                          && forall j :: 0 <= j < i ==> probe(j, hosts[j], StatCommand).Ok?
  {
    var rows: seq<RoleRow> := [];
    var i := 0;
    while i < |hosts|
      invariant 0 <= i <= |hosts|
      invariant |rows| == i
      invariant forall j :: 0 <= j < i ==> probe(j, hosts[j], StatCommand).Ok?
      invariant forall j :: 0 <= j < i ==>
                  rows[j] == RoleRow(hosts[j], ParseSrvr(probe(j, hosts[j], StatCommand).value))
    {
      var addr := hosts[i];
      var response := probe(i, addr, StatCommand);
      if response.Err? {
        return Err(response.error);
      }
      var mode := ParseSrvr(response.value);
      rows := rows + [RoleRow(addr, mode)];
      i := i + 1;
    }
    return Ok(rows);
  }

  /** `App::get_role`, without the final rendering: probes every host of `--zoo-hosts`. */
  method GetRole(cli: Cli, probe: (nat, string, string) -> Result<string>) returns (rc: Result<seq<RoleRow>>)
    ensures var hosts := GetZooHosts(cli);
      rc.Ok? <==> forall i :: 0 <= i < |hosts| ==> probe(i, hosts[i], StatCommand).Ok?
    ensures var hosts := GetZooHosts(cli);
      rc.Ok? ==>
        && |rc.value| == |hosts|
        && forall i :: 0 <= i < |hosts| ==>
             rc.value[i] == RoleRow(hosts[i], ParseSrvr(probe(i, hosts[i], StatCommand).value))
    ensures var hosts := GetZooHosts(cli);
      rc.Err? ==>
        exists i :: && 0 <= i < |hosts|
                    && probe(i, hosts[i], StatCommand) == Err(rc.error)
                    && forall j :: 0 <= j < i ==> probe(j, hosts[j], StatCommand).Ok?
  {
    rc := ProbeHosts(GetZooHosts(cli), probe);
  }
}
