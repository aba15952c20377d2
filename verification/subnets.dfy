/** `IsSubnetContainsIP`: is an address inside any of the internal subnets?
    CIDR parsing and the containment test are supplied from outside; the
    model is about the order in which subnets are tried and which outcome
    wins. */
module Subnets {
  import opened Wrappers

  /** `net.ParseCIDR` and `IPNet.Contains(net.ParseIP(ip))`, for some
      representation `N` of a parsed network. */
  datatype NetOps<!N> = NetOps(
    parseCidr: string -> Result<N, string>,
    contains: (N, string) -> bool)

  /** The subnet parses and holds the address. */
  predicate Holds<N>(ops: NetOps<N>, ip: string, subnet: string) {
    ops.parseCidr(subnet).Success? && ops.contains(ops.parseCidr(subnet).value, ip)
  }

  /** Examining this subnet ends the loop: it is malformed or holds the address. */
  predicate Stops<N>(ops: NetOps<N>, ip: string, subnet: string) {
    ops.parseCidr(subnet).Failure? || Holds(ops, ip, subnet)
  }

  /** `IsSubnetContainsIP(ip, subNets)`: subnets are tried in order; the
      first malformed one ends the loop with its parse error, the first one
      holding the address ends it with true, and otherwise the answer is
      false. */
  function IsSubnetContainsIP<N>(ops: NetOps<N>, ip: string, subnets: seq<string>): (r: Result<bool, string>)
    ensures r == Success(true) ==> exists k :: 0 <= k < |subnets| && Holds(ops, ip, subnets[k])
    ensures r == Success(false) <==> forall k :: 0 <= k < |subnets| ==> !Stops(ops, ip, subnets[k])
    ensures r.Failure? ==> exists k :: 0 <= k < |subnets| && ops.parseCidr(subnets[k]) == Failure(r.error)
  {
    if |subnets| == 0 then Success(false)
    else
      match ops.parseCidr(subnets[0])
      case Failure(err) => Failure(err)
      case Success(network) =>
        if ops.contains(network, ip) then Success(true)
        else
          var rest := IsSubnetContainsIP(ops, ip, subnets[1..]);
          assert forall k :: 0 <= k < |subnets| - 1 ==> subnets[1..][k] == subnets[k + 1];
          assert rest == Success(false) ==> forall k :: 0 <= k < |subnets| ==> !Stops(ops, ip, subnets[k]) by {
            if rest == Success(false) {
              forall k | 0 <= k < |subnets|
                ensures !Stops(ops, ip, subnets[k])
              {
                if k > 0 { assert subnets[k] == subnets[1..][k - 1]; }
              }
            }
          }
          rest
  }

  /** Index of the first subnet that ends the loop, or `|subnets|`. */
  function FirstStop<N>(ops: NetOps<N>, ip: string, subnets: seq<string>): (k: nat)
    ensures k <= |subnets|
    ensures forall j :: 0 <= j < k ==> !Stops(ops, ip, subnets[j])
    ensures k < |subnets| ==> Stops(ops, ip, subnets[k])
  {
    if |subnets| == 0 || Stops(ops, ip, subnets[0]) then 0
    else
      var k := FirstStop(ops, ip, subnets[1..]);
      assert forall j :: 1 <= j < k + 1 ==> subnets[j] == subnets[1..][j - 1];
      k + 1
  }

  /** The outcome is decided by the first subnet that ends the loop and by
      nothing before or after it. */
  lemma {:induction false} DecidedByFirstStop<N>(ops: NetOps<N>, ip: string, subnets: seq<string>)
    ensures var k := FirstStop(ops, ip, subnets);
      IsSubnetContainsIP(ops, ip, subnets) ==
        if k == |subnets| then Success(false)
        else if ops.parseCidr(subnets[k]).Failure? then Failure(ops.parseCidr(subnets[k]).error)
        else Success(true)
  {
    if |subnets| > 0 && !Stops(ops, ip, subnets[0]) {
      DecidedByFirstStop(ops, ip, subnets[1..]);
    }
  }

  /** Subnets after a decisive one are never looked at, malformed or not. */
  lemma {:induction false} LaterSubnetsIgnored<N>(ops: NetOps<N>, ip: string, front: seq<string>, back: seq<string>)
    requires IsSubnetContainsIP(ops, ip, front) != Success(false)
    ensures IsSubnetContainsIP(ops, ip, front + back) == IsSubnetContainsIP(ops, ip, front)
  {
    assert |front| > 0;
    assert (front + back)[0] == front[0];
    if !Stops(ops, ip, front[0]) {
      assert (front + back)[1..] == front[1..] + back;
      LaterSubnetsIgnored(ops, ip, front[1..], back);
    }
  }

  /** An empty list never contains anything, without error. */
  lemma NoSubnets<N>(ops: NetOps<N>, ip: string)
    ensures IsSubnetContainsIP(ops, ip, []) == Success(false)
  {
  }
}
