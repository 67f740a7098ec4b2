/** Whether a certificate names the service that an initiator wanted: `_BIDValidateSubject` of bid_identity.c
    with its matchers for host names, service names (RFC 4985) and key usages. */
module Subject {
  import opened Wrappers
  import opened Json
  import Jwt
  import opened Spn

  const OID_ANY_KEY_USAGE := "2.5.29.37.0"
  const OID_SERVER_AUTH := "1.3.6.1.5.5.7.3.1"
  const OID_DNS_SRV := "1.3.6.1.5.5.7.8.7"

  // ----- names -----

  /** `_BIDSubjectCompare`: host names are compared without regard to case. */
  predicate Compares(asserted: string, subject: string, rp: bool) {
    if rp then CaseEqual(asserted, subject) else asserted == subject
  }

  /** The value is the subject's name, or a list with it. */
  predicate SubjectEqual(asserted: Option<Json>, subject: string, rp: bool) {
    && asserted.Some?
    && match asserted.value
       case Str(s) => Compares(s, subject, rp)
       case Arr(elems) => exists i :: 0 <= i < |elems| && elems[i].Str? && Compares(elems[i].s, subject, rp)
       case _ => false
  }

  /** `_BIDSubjectEqualP`. */
  method SubjectEqualP(asserted: Option<Json>, subject: string, rp: bool) returns (equal: bool)
    ensures equal == SubjectEqual(asserted, subject, rp)
  {
    equal := false;
    if asserted.Some? && asserted.value.Str? {
      equal := Compares(asserted.value.s, subject, rp);
    } else if asserted.Some? && asserted.value.Arr? {
      var elems := asserted.value.elems;
      for i := 0 to |elems|
        invariant equal ==> SubjectEqual(asserted, subject, rp)
        invariant !equal ==> forall j :: 0 <= j < i ==> !(elems[j].Str? && Compares(elems[j].s, subject, rp))
      {
        if !elems[i].Str? {
          continue;
        }
        equal := Compares(elems[i].s, subject, rp);
        if equal {
          break;
        }
      }
    }
  }

  /** `_BIDSRVNameEqualP`: "_service.host" against "service/host". */
  predicate SrvNameEqual(srv: string, subject: string) {
    && srv != "" && srv[0] == '_'
    && var p, q := Jwt.IndexOf(srv, '.', 1), Jwt.IndexOf(subject, '/', 0);
    && p < |srv| && q < |subject| && p - 1 == q
    && CaseEqual(srv[1..p], subject[..q]) && CaseEqual(srv[p + 1..], subject[q + 1..])
  }

  /** The two names are of one service on one host, up to case. */
  ghost predicate SameService(srv: string, subject: string, service: string, host: string, service': string, host': string) {
    && srv == "_" + service + "." + host && '.' !in service
    && subject == service' + "/" + host' && '/' !in service'
    && CaseEqual(service, service') && CaseEqual(host, host')
  }

  lemma FirstIs(a: string, c: char, b: string, p: nat)
    requires p <= |a| && c !in a[p..]
    ensures Jwt.IndexOf(a + [c] + b, c, p) == |a|
  {
    var s := a + [c] + b;
    forall i | p <= i < |a|
      ensures s[i] != c
    {
      assert s[i] == a[p..][i - p];
    }
    var r := Jwt.IndexOf(s, c, p);
    assert s[|a|] == c;
    assert r >= |a| by {
      assert r < |s| ==> s[r] == c;
    }
  }

  /** A service name matches exactly when it splits into the subject's service and host. */
  lemma SrvNameExactly(srv: string, subject: string)
    ensures SrvNameEqual(srv, subject) <==>
            exists service, host, service', host' :: SameService(srv, subject, service, host, service', host')
  {
    hide CaseEqual, Jwt.IndexOf;
    if SrvNameEqual(srv, subject) {
      var p, q := Jwt.IndexOf(srv, '.', 1), Jwt.IndexOf(subject, '/', 0);
      assert srv == "_" + srv[1..p] + "." + srv[p + 1..];
      assert subject == subject[..q] + "/" + subject[q + 1..];
      assert SameService(srv, subject, srv[1..p], srv[p + 1..], subject[..q], subject[q + 1..]);
    }
    if exists service, host, service', host' :: SameService(srv, subject, service, host, service', host') {
      var service, host, service', host' :| SameService(srv, subject, service, host, service', host');
      assert ("_" + service)[1..] == service && service'[0..] == service';
      FirstIs("_" + service, '.', host, 1);
      FirstIs(service', '/', host', 0);
      assert |service| == |service'| by {
        SameLength(service, service');
      }
      assert srv[1..1 + |service|] == service && srv[|service| + 2..] == host;
      assert subject[..|service'|] == service' && subject[|service'| + 1..] == host';
    }
  }

  lemma SameLength(a: string, b: string)
    requires CaseEqual(a, b)
    ensures |a| == |b|
  {
  }

  /** An element of "othername" that names the service. */
  predicate NamesService(other: Json, subject: string) {
    && GetString(Members(other), "oid") == Some(OID_DNS_SRV)
    && GetString(Members(other), "value").Some? && SrvNameEqual(GetString(Members(other), "value").value, subject)
  }

  predicate OtherNameEqual(asserted: Option<Json>, subject: string) {
    && asserted.Some? && asserted.value.Arr?
    && exists i :: 0 <= i < |asserted.value.elems| && NamesService(asserted.value.elems[i], subject)
  }

  /** `_BIDOtherNameEqualP`. */
  method OtherNameEqualP(asserted: Option<Json>, subject: string) returns (matched: bool)
    ensures matched == OtherNameEqual(asserted, subject)
  {
    hide SrvNameEqual;
    if asserted.None? || !asserted.value.Arr? {
      return false;
    }
    var elems := asserted.value.elems;
    for i := 0 to |elems|
      invariant forall j :: 0 <= j < i ==> !NamesService(elems[j], subject)
    {
      var oid, srv := GetString(Members(elems[i]), "oid"), GetString(Members(elems[i]), "value");
      if oid != Some(OID_DNS_SRV) {
        continue;
      }
      if srv.None? {
        continue;
      }
      if SrvNameEqual(srv.value, subject) {
        return true;
      }
    }
    return false;
  }

  // ----- key usages -----

  function Elems(j: Json): seq<Json> {
    if j.Arr? then j.elems else []
  }

  /** `_BIDEKUIsPresentP`. */
  predicate UsagePresent(eku: Json, oid: string) {
    Str(oid) in Elems(eku)
  }

  /** "http/", the one service whose usage the library knows, whatever follows. */
  predicate IsHttp(subject: string) {
    |subject| >= 5 && CaseEqual(subject[..5], "http/")
  }

  /** `_BIDValidateEKUs`: no usage, exactly the usage "any", or one that suits the service. */
  predicate UsageServes(attributes: Object, subject: string, gss: bool) {
    || "eku" !in attributes
    || (|Elems(attributes["eku"])| == 1 && UsagePresent(attributes["eku"], OID_ANY_KEY_USAGE))
    || (if gss then IsHttp(subject) else UsagePresent(attributes["eku"], OID_SERVER_AUTH))
  }

  // ----- the subject -----

  /** The host that the subject names: of a service principal in a GSS context, of a URL otherwise. */
  function HostOf(subject: string, gss: bool): Result<string> {
    if gss then
      var host :- Hostify(subject);
      Ok(host[5..])
    else if "http://" <= subject then Ok(subject[7..])
    else if "https://" <= subject then Ok(subject[8..])
    else Err(BadAudience)
  }

  /** `_BIDValidateSubject`; without a subject there is nothing to compare. */
  function ValidateSubject(attributes: Object, subject: Option<string>, rp: bool, gss: bool): Result<()> {
    if subject.None? then Ok(())
    else if "principal" !in attributes then Err(MissingPrincipal)
    else
      var principal, name := Members(attributes["principal"]), subject.value;
      var p :- if rp then HostOf(name, gss) else Ok(name);
      var other := Get(principal, "othername");
      var service := rp && OtherNameEqual(other, name);
      if rp && !service && other.Some? then Err(BadSubject)
      else if !service && !SubjectEqual(Get(principal, if rp then "hostname" else "email"), p, rp)
              && !SubjectEqual(Get(attributes, "sub"), p, rp) then Err(BadSubject)
      else if rp && !service && !UsageServes(attributes, name, gss) then Err(BadSubject)
      else Ok(())
  }

  /** `_BIDValidateSubject`, counting its matches as it goes. */
  method CheckSubject(attributes: Object, subject: Option<string>, rp: bool, gss: bool) returns (r: Result<()>)
    ensures r == ValidateSubject(attributes, subject, rp, gss)
  {
    hide OtherNameEqual, SubjectEqual, UsageServes, HostStart, HostEnd, Lower;
    if subject.None? {
      return Ok(());
    }
    if "principal" !in attributes {
      return Err(MissingPrincipal);
    }
    var principal, name := Members(attributes["principal"]), subject.value;
    var matchedSubject, matchedService := 0, 0;
    var p, value;
    if rp {
      if gss {
        var host :- HostifySpn(name);
        p := host[5..];
      } else if "http://" <= name {
        p := name[7..];
      } else if "https://" <= name {
        p := name[8..];
      } else {
        return Err(BadAudience);
      }
      var other := Get(principal, "othername");
      var matched := OtherNameEqualP(other, name);
      if matched {
        matchedSubject, matchedService := matchedSubject + 1, matchedService + 1;
      } else if other.Some? {
        return Err(BadSubject);
      }
      value := Get(principal, "hostname");
    } else {
      value, p := Get(principal, "email"), name;
    }
    var equal := SubjectEqualP(value, p, rp);
    if equal {
      matchedSubject := matchedSubject + 1;
    }
    equal := SubjectEqualP(Get(attributes, "sub"), p, rp);
    if equal {
      matchedSubject := matchedSubject + 1;
    }
    if matchedSubject > 0 && rp && matchedService == 0 && !UsageServes(attributes, name, gss) {
      return Err(BadSubject);
    }
    r := if matchedSubject == 0 then Err(BadSubject) else Ok(());
  }

  /** A string that the value is, or lists. */
  ghost predicate Lists(asserted: Option<Json>, s: string) {
    asserted.Some? && (asserted.value == Str(s) || (asserted.value.Arr? && Str(s) in asserted.value.elems))
  }

  /** Which host a subject names. */
  lemma HostOfExactly(subject: string, gss: bool)
    ensures HostOf(subject, gss).Ok? || HostOf(subject, gss) == Err(BadAudience)
    ensures forall host :: HostOf(subject, gss) == Ok(host) <==>
              if gss then Hostify(subject) == Ok("host/" + host) else subject == "http://" + host || subject == "https://" + host
  {
    hide HostStart, HostEnd, Lower;
    assert "http://"[4] == ':' && "https://"[4] == 's';
    forall host
      ensures HostOf(subject, gss) == Ok(host) <==>
              if gss then Hostify(subject) == Ok("host/" + host) else subject == "http://" + host || subject == "https://" + host
    {
      if gss && Hostify(subject).Ok? {
        var name := Hostify(subject).value;
        assert name[..5] == "host/" && name == name[..5] + name[5..];
        assert ("host/" + host)[5..] == host;
      } else if !gss {
        assert ("http://" + host)[7..] == host && ("https://" + host)[8..] == host;
        if "http://" <= subject {
          assert subject == "http://" + subject[7..];
        } else if "https://" <= subject {
          assert subject == "https://" + subject[8..];
        }
      }
    }
  }

  lemma SubjectEqualExactly(asserted: Option<Json>, subject: string, rp: bool)
    ensures SubjectEqual(asserted, subject, rp) <==> exists s :: Lists(asserted, s) && Compares(s, subject, rp)
  {
    if asserted.Some? && SubjectEqual(asserted, subject, rp) {
      if asserted.value.Str? {
        assert Lists(asserted, asserted.value.s);
      } else {
        var elems := asserted.value.elems;
        var i :| 0 <= i < |elems| && elems[i].Str? && Compares(elems[i].s, subject, rp);
        assert elems[i] == Str(elems[i].s) && Lists(asserted, elems[i].s);
      }
    }
    if exists s :: Lists(asserted, s) && Compares(s, subject, rp) {
      var s :| Lists(asserted, s) && Compares(s, subject, rp);
      if asserted.value.Arr? {
        var i :| 0 <= i < |asserted.value.elems| && asserted.value.elems[i] == Str(s);
      }
    }
  }

  /** A service name of the certificate is the subject's service and host. */
  ghost predicate NamedByService(principal: Object, subject: string) {
    && "othername" in principal && principal["othername"].Arr?
    && exists i, srv :: 0 <= i < |principal["othername"].elems| && SaysSrv(principal["othername"].elems[i], srv)
                        && SrvNameEqual(srv, subject)
  }

  ghost predicate SaysSrv(other: Json, srv: string) {
    GetString(Members(other), "oid") == Some("1.3.6.1.5.5.7.8.7") && GetString(Members(other), "value") == Some(srv)
  }

  /** The certificate states no usage, or exactly the usage "any"; or, outside GSS, lists that of a server. In a GSS
      context the service decides alone: whatever the usages are, they suit "http", and no other service. */
  ghost predicate UsageSuits(attributes: Object, subject: string, gss: bool) {
    || "eku" !in attributes
    || attributes["eku"] == Arr([Str("2.5.29.37.0")])
    || (!gss && attributes["eku"].Arr? && Str("1.3.6.1.5.5.7.3.1") in attributes["eku"].elems)
    || (gss && exists service, host :: subject == service + host && CaseEqual(service, "http/"))
  }

  lemma UsageExactly(attributes: Object, subject: string, gss: bool)
    ensures UsageServes(attributes, subject, gss) <==> UsageSuits(attributes, subject, gss)
  {
    hide CaseEqual;
    if IsHttp(subject) {
      assert subject == subject[..5] + subject[5..];
    }
    if exists service, host :: subject == service + host && CaseEqual(service, "http/") {
      var service, host :| subject == service + host && CaseEqual(service, "http/");
      SameLength(service, "http/");
      assert subject[..5] == service;
    }
    if "eku" in attributes && attributes["eku"].Arr? && |attributes["eku"].elems| == 1 {
      assert attributes["eku"].elems == [attributes["eku"].elems[0]];
    }
  }

  /** A host name or the subject of the certificate is the host, and its usage suits the service. */
  ghost predicate NamedByHost(attributes: Object, subject: string, gss: bool) {
    && "principal" in attributes && "othername" !in Members(attributes["principal"]) && HostOf(subject, gss).Ok?
    && (exists s :: (Lists(Get(Members(attributes["principal"]), "hostname"), s) || Lists(Get(attributes, "sub"), s))
                    && CaseEqual(s, HostOf(subject, gss).value))
    && UsageSuits(attributes, subject, gss)
  }

  /** A relying party's certificate passes exactly when it names the wanted service: by a service name, which
      decides as soon as there is any, or else by host name and usage. */
  lemma SubjectExactly(attributes: Object, subject: string, gss: bool)
    ensures ValidateSubject(attributes, Some(subject), true, gss).Ok? <==>
            && "principal" in attributes && HostOf(subject, gss).Ok?
            && (NamedByService(Members(attributes["principal"]), subject) || NamedByHost(attributes, subject, gss))
  {
    hide SrvNameEqual, SubjectEqual, UsageServes, UsageSuits, HostOf, CaseEqual, Lists;
    UsageExactly(attributes, subject, gss);
    if "principal" in attributes && HostOf(subject, gss).Ok? {
      var principal, p := Members(attributes["principal"]), HostOf(subject, gss).value;
      SubjectEqualExactly(Get(principal, "hostname"), p, true);
      SubjectEqualExactly(Get(attributes, "sub"), p, true);
      ServiceExactly(principal, subject);
    }
  }

  /** An initiator's certificate passes exactly when its mail address or its subject is the wanted name, or lists it. */
  lemma MailExactly(attributes: Object, subject: string, gss: bool)
    ensures ValidateSubject(attributes, Some(subject), false, gss).Ok? <==>
            && "principal" in attributes
            && (Lists(Get(Members(attributes["principal"]), "email"), subject) || Lists(Get(attributes, "sub"), subject))
  {
    hide SubjectEqual, Lists, UsageServes, OtherNameEqual, HostOf;
    if "principal" in attributes {
      SubjectEqualExactly(Get(Members(attributes["principal"]), "email"), subject, false);
      SubjectEqualExactly(Get(attributes, "sub"), subject, false);
    }
  }

  /** Which error tells why a certificate does not pass. */
  lemma SubjectErrors(attributes: Object, subject: string, rp: bool, gss: bool)
    ensures var r := ValidateSubject(attributes, Some(subject), rp, gss);
            && ("principal" !in attributes ==> r == Err(MissingPrincipal))
            && ("principal" in attributes && rp && HostOf(subject, gss).Err? ==> r == Err(BadAudience))
            && ("principal" in attributes && (rp ==> HostOf(subject, gss).Ok?) ==> r.Ok? || r == Err(BadSubject))
  {
    hide SubjectEqual, OtherNameEqual, UsageServes;
    HostOfExactly(subject, gss);
  }

  lemma ServiceExactly(principal: Object, subject: string)
    ensures OtherNameEqual(Get(principal, "othername"), subject) <==> NamedByService(principal, subject)
  {
    hide SrvNameEqual;
    if OtherNameEqual(Get(principal, "othername"), subject) {
      var elems := principal["othername"].elems;
      var i :| 0 <= i < |elems| && NamesService(elems[i], subject);
      assert SaysSrv(elems[i], GetString(Members(elems[i]), "value").value);
    }
    if NamedByService(principal, subject) {
      var elems := principal["othername"].elems;
      var i, srv :| 0 <= i < |elems| && SaysSrv(elems[i], srv) && SrvNameEqual(srv, subject);
      assert NamesService(elems[i], subject);
    }
  }
}
