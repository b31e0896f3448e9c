/**
 * Argument checking and the SRV query name of `each_srv_resource`.
 * Both labels are checked before the resolver is consulted, the service
 * label first; the domain is taken as given.
 */
module SrvName {
  import opened SrvTypes

  /** A service or protocol label is accepted when it is present, non-empty and free of '.'. */
  predicate ValidLabel(name: Option<string>) {
    name.Some? && name.value != [] && '.' !in name.value
  }

  /**
   * The name `_<service>._<protocol>.<domain>` handed to the resolver, or
   * the `ArgumentError` raised instead.
   */
  function QueryName(service: Option<string>, protocol: Option<string>, domain: string): (r: Result<string, Error>)
    ensures r.Failure? <==> !ValidLabel(service) || !ValidLabel(protocol)
    ensures !ValidLabel(service) ==> r == Failure(InvalidService(service))
    ensures ValidLabel(service) && !ValidLabel(protocol) ==> r == Failure(InvalidProtocol(protocol))
    ensures r.Success? ==> r.value == "_" + service.value + "._" + protocol.value + "." + domain
  {
    if !ValidLabel(service) then Failure(InvalidService(service))
    else if !ValidLabel(protocol) then Failure(InvalidProtocol(protocol))
    else Success("_" + service.value + "._" + protocol.value + "." + domain)
  }

  /** Index of the first '.' in `s`, or `|s|` when there is none. */
  function FirstDot(s: string): (i: nat)
    ensures i <= |s| && forall k | 0 <= k < i :: s[k] != '.'
    ensures i < |s| ==> s[i] == '.'
  {
    if s == [] then 0
    else if s[0] == '.' then 0
    else
      FirstDot(s[1..]) + 1
  }

  /** The first '.' of `a + "." + b` is the one after `a` when `a` has none. */
  lemma FirstDotAfterLabel(a: string, b: string)
    requires '.' !in a
    ensures FirstDot(a + "." + b) == |a|
  {
    var s := a + "." + b;
    var i := FirstDot(s);
    assert forall k | 0 <= k < |a| :: s[k] == a[k] && a[k] in a;
    assert s[|a|] == '.';
  }

  /**
   * Reads a query name back into its service, protocol and domain: the
   * inverse of `QueryName` on accepted labels.
   */
  function ParseQueryName(name: string): Option<(string, string, string)> {
    if name == [] || name[0] != '_' then None
    else
      var rest := name[1..];
      var i := FirstDot(rest);
      if i + 1 >= |rest| || rest[i + 1] != '_' then None
      else
        var tail := rest[i + 2..];
        var j := FirstDot(tail);
        if j == |tail| || i == 0 || j == 0 then None
        else Some((rest[..i], tail[..j], tail[j + 1..]))
  }

  /** Building the query name loses nothing: service, protocol and domain can be read back. */
  lemma QueryNameRoundTrip(service: string, protocol: string, domain: string)
    requires ValidLabel(Some(service)) && ValidLabel(Some(protocol))
    ensures QueryName(Some(service), Some(protocol), domain).Success?
    ensures ParseQueryName(QueryName(Some(service), Some(protocol), domain).value)
            == Some((service, protocol, domain))
  {
    var name := QueryName(Some(service), Some(protocol), domain).value;
    var rest := name[1..];
    assert rest == service + "." + ("_" + protocol + "." + domain);
    FirstDotAfterLabel(service, "_" + protocol + "." + domain);
    var i := FirstDot(rest);
    assert rest[i + 1] == '_';
    assert i == |service| && rest[..i] == service;
    var tail := rest[i + 2..];
    assert tail == protocol + "." + domain;
    FirstDotAfterLabel(protocol, domain);
    var j := FirstDot(tail);
    assert j == |protocol| && tail[..j] == protocol && tail[j + 1..] == domain;
  }

  /** Every name that parses is the query name of the labels it parses into, and they are accepted. */
  lemma ParseQueryNameSound(name: string, service: string, protocol: string, domain: string)
    requires ParseQueryName(name) == Some((service, protocol, domain))
    ensures ValidLabel(Some(service)) && ValidLabel(Some(protocol))
    ensures QueryName(Some(service), Some(protocol), domain) == Success(name)
  {
    var rest := name[1..];
    var i := FirstDot(rest);
    var tail := rest[i + 2..];
    var j := FirstDot(tail);
    assert tail == tail[..j] + "." + tail[j + 1..];
    assert rest == rest[..i] + "._" + tail;
    assert name == "_" + rest;
    assert service == rest[..i] && protocol == tail[..j] && domain == tail[j + 1..];
    Assemble(service, protocol, domain, tail, rest, name);
  }

  /**
   * Regroups the three concatenations into the query name's form. A lemma of
   * its own, rather than an assertion in `ParseQueryNameSound`, so that the
   * solver sees the step without the parser's other facts.
   */
  lemma Assemble(service: string, protocol: string, domain: string, tail: string, rest: string, name: string)
    requires tail == protocol + "." + domain
    requires rest == service + "._" + tail
    requires name == "_" + rest
    ensures name == "_" + service + "._" + protocol + "." + domain
  {
  }

  /** Distinct accepted label pairs, or distinct domains, never share a query name. */
  lemma QueryNameInjective(s1: string, p1: string, d1: string, s2: string, p2: string, d2: string)
    requires ValidLabel(Some(s1)) && ValidLabel(Some(p1))
    requires ValidLabel(Some(s2)) && ValidLabel(Some(p2))
    requires QueryName(Some(s1), Some(p1), d1) == QueryName(Some(s2), Some(p2), d2)
    ensures s1 == s2 && p1 == p2 && d1 == d2
  {
    QueryNameRoundTrip(s1, p1, d1);
    QueryNameRoundTrip(s2, p2, d2);
  }
}
