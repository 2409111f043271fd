/** Runs over the authority of an absolute-form target, and over a target as a whole. */
module RequestTarget {
  import opened Bytes
  import opened Texts
  import opened ParserState
  import opened RequestLine
  import G = RequestGrammar
  import opened RequestRuns

  /** The byte at q that ends the authority has been taken: a slash starts the path, a space ends it all. */
  function Arrived(l: Line, data: Bytes, q: nat): Line
    requires q < |data|
  {
    if data[q] == SLASH then l.WithUri(l.uri.(start := q), AfterSlashInUri) else BorrowSlash(l)
  }

  predicate EndsAuthority(data: Bytes, q: nat) {
    q < |data| && (data[q] == SLASH || data[q] == SP)
  }

  lemma HostEndRun(l: Line, data: Bytes, q: nat)
    requires q <= |data| && l.state in {Host, HostEnd}
    requires l.state == Host && q < |data| ==> !IsHostByte(data[q])
    ensures var l' := l.(auth := l.auth.(hostEnd := q));
            if q < |data| && data[q] == COLON then Run(l, data, q) == Run(l'.To(Port), data, q + 1)
            else if EndsAuthority(data, q) then Run(l, data, q) == Run(Arrived(l', data, q), data, q + 1)
            else !Complete(Run(l, data, q))
  {
    hide Run, StepPath, StepUri, StepHttp09, StepProtocol, StepVersion, StepAlmostDone;
    if q < |data| { Turn(l, data, q); } else { AtEnd(l, data); }
  }

  lemma PortNext(l: Line, data: Bytes)
    requires l.state == Port
    ensures forall i :: 0 <= i < |data| ==>
              Step(l, data, i) == if IsDigit(data[i]) then Next(l)
                                  else if EndsAuthority(data, i) then Next(Arrived(l.(auth := l.auth.(portEnd := i)), data, i))
                                  else Fail(l, INVALID_REQUEST)
  {
    hide StepMethod, StepSchema, StepPath, StepUri, StepHttp09, StepProtocol, StepVersion, StepAlmostDone, StepHostEnd;
  }

  lemma PortRun(l: Line, data: Bytes, p: nat)
    requires p <= |data| && l.state == Port
    ensures var q := Skip(IsDigit, data, p);
            if EndsAuthority(data, q) then
              Run(l, data, p) == Run(Arrived(l.(auth := l.auth.(portEnd := q)), data, q), data, q + 1)
            else !Complete(Run(l, data, p))
  {
    hide Run, Step, Arrived, Skip;
    var q := Skip(IsDigit, data, p);
    PortNext(l, data);
    SkipRun(IsDigit, l, data, p);
    if q < |data| { Turn(l, data, q); } else { AtEnd(l, data); }
  }

  function WithPort(a: Authority, hostEnd: int, port: Option<Bytes>): Authority {
    a.(hostEnd := hostEnd, portEnd := if port == None then a.portEnd else hostEnd + 1 + |port.value|)
  }

  lemma PortComplete(l: Line, data: Bytes, q: nat, port: Option<Bytes>)
    requires q <= |data| && l.state in {Host, HostEnd}
    requires port.Some? ==> All(port.value, IsDigit)
    requires Occurs(data, q, G.PortText(port)) && EndsAuthority(data, q + |G.PortText(port)|)
    ensures var e := q + |G.PortText(port)|;
            Run(l, data, q) == Run(Arrived(l.(auth := WithPort(l.auth, q, port)), data, e), data, e + 1)
  {
    hide Run, Step;
    if port.Some? {
      OccursConcat(data, q, [COLON], port.value);
      OccursOne(data, q, COLON);
      OccursClass(IsDigit, data, q + 1, port.value);
      PortRun(l.(auth := l.auth.(hostEnd := q)).To(Port), data, q + 1);
    }
    HostEndRun(l, data, q);
    if port.Some? {
      ArrivedAnyState(l.(auth := WithPort(l.auth, q, port)), Port, data, q + |G.PortText(port)|);
    }
  }

  lemma ArrivedAnyState(l: Line, s: State, data: Bytes, q: nat)
    requires q < |data|
    ensures Arrived(l.To(s), data, q) == Arrived(l, data, q)
  {
  }

  lemma PortTextAt(data: Bytes, q: nat, e: nat)
    requires q < e <= |data| && data[q] == COLON
    ensures Occurs(data, q, G.PortText(Some(data[q + 1..e]))) && q + |G.PortText(Some(data[q + 1..e]))| == e
  {
    OccursOne(data, q, COLON);
    OccursConcat(data, q, [COLON], data[q + 1..e]);
  }

  lemma NoPortAt(data: Bytes, q: nat)
    requires q <= |data|
    ensures Occurs(data, q, G.PortText(None)) && |G.PortText(None)| == 0
  {
  }

  lemma PortSound(l: Line, data: Bytes, q: nat) returns (port: Option<Bytes>)
    requires q <= |data| && l.state in {Host, HostEnd}
    requires l.state == Host && q < |data| ==> !IsHostByte(data[q])
    requires Complete(Run(l, data, q))
    ensures port.Some? ==> All(port.value, IsDigit)
    ensures Occurs(data, q, G.PortText(port)) && EndsAuthority(data, q + |G.PortText(port)|)
  {
    hide Run, Step, Occurs, Arrived, G.PortText;
    HostEndRun(l, data, q);
    if data[q] == COLON {
      PortRun(l.(auth := l.auth.(hostEnd := q)).To(Port), data, q + 1);
      var e := Skip(IsDigit, data, q + 1);
      port := Some(data[q + 1..e]);
      PortTextAt(data, q, e);
    } else {
      port := None;
      NoPortAt(data, q);
    }
  }

  // ---------- the host ----------

  function HostState(h: G.Host): State { if h.Registered? then Host else HostEnd }

  lemma HostStartRun(l: Line, data: Bytes, h: nat)
    requires h <= |data| && l.state == HostStart
    ensures var l' := l.(auth := l.auth.(hostStart := h));
            if h == |data| then !Complete(Run(l, data, h))
            else if data[h] == LBRACKET then Run(l, data, h) == Run(l'.To(HostIpLiteral), data, h + 1)
            else Run(l, data, h) == Run(l'.To(Host), data, h)
  {
    hide Run, StepPath, StepUri, StepHttp09, StepProtocol, StepVersion, StepAlmostDone;
    if h < |data| {
      Turn(l, data, h);
      if data[h] != LBRACKET {
        Turn(l.(auth := l.auth.(hostStart := h)).To(Host), data, h);
      }
    } else {
      AtEnd(l, data);
    }
  }

  lemma LiteralRun(l: Line, data: Bytes, p: nat)
    requires p <= |data| && l.state == HostIpLiteral
    ensures var q := Skip(IsLiteralByte, data, p);
            if q < |data| && data[q] == RBRACKET then Run(l, data, p) == Run(l.To(HostEnd), data, q + 1)
            else !Complete(Run(l, data, p))
  {
    hide Run, StepPath, StepUri, StepHttp09, StepProtocol, StepVersion, StepAlmostDone;
    var q := Skip(IsLiteralByte, data, p);
    SkipRun(IsLiteralByte, l, data, p);
    if q < |data| { Turn(l, data, q); } else { AtEnd(l, data); }
  }

  predicate EndsHost(data: Bytes, q: nat) {
    EndsAuthority(data, q) || (q < |data| && data[q] == COLON)
  }

  lemma RegisteredComplete(l: Line, data: Bytes, h: nat, text: Bytes)
    requires h < |data| && l.state == HostStart && All(text, IsHostByte)
    requires Occurs(data, h, text) && EndsHost(data, h + |text|)
    ensures Run(l, data, h) == Run(l.WithAuth(l.auth.(hostStart := h), Host), data, h + |text|)
  {
    hide Run, Step;
    HostStartRun(l, data, h);
    assert data[h] != LBRACKET by { if text != [] { assert data[h] == text[0]; } }
    OccursClass(IsHostByte, data, h, text);
    HostRun(l.WithAuth(l.auth.(hostStart := h), Host), data, h);
  }

  lemma LiteralComplete(l: Line, data: Bytes, h: nat, text: Bytes)
    requires h < |data| && l.state == HostStart && All(text, IsLiteralByte)
    requires Occurs(data, h, [LBRACKET] + text + [RBRACKET])
    ensures Run(l, data, h) == Run(l.WithAuth(l.auth.(hostStart := h), HostEnd), data, h + |text| + 2)
  {
    hide Run, Step, Occurs;
    HostStartRun(l, data, h);
    OccursConcat(data, h, [LBRACKET] + text, [RBRACKET]);
    OccursConcat(data, h, [LBRACKET], text);
    OccursOne(data, h, LBRACKET);
    OccursOne(data, h + 1 + |text|, RBRACKET);
    OccursClass(IsLiteralByte, data, h + 1, text);
    LiteralRun(l.WithAuth(l.auth.(hostStart := h), HostIpLiteral), data, h + 1);
  }

  lemma HostComplete(l: Line, data: Bytes, h: nat, host: G.Host)
    requires h < |data| && l.state == HostStart && G.ValidHost(host)
    requires Occurs(data, h, G.HostText(host)) && EndsHost(data, h + |G.HostText(host)|)
    ensures Run(l, data, h) ==
            Run(l.WithAuth(l.auth.(hostStart := h), HostState(host)), data, h + |G.HostText(host)|)
  {
    hide Run, Step, Occurs;
    match host
    case Registered(text) => RegisteredComplete(l, data, h, text);
    case Literal(text) => LiteralComplete(l, data, h, text);
  }

  lemma HostRun(l: Line, data: Bytes, p: nat)
    requires p <= |data| && l.state == Host
    ensures Run(l, data, p) == Run(l, data, Skip(IsHostByte, data, p))
  {
    hide Run, StepPath, StepUri, StepHttp09, StepProtocol, StepVersion, StepAlmostDone;
    SkipRun(IsHostByte, l, data, p);
  }

  lemma HostTextAt(data: Bytes, h: nat, q: nat)
    requires h <= q <= |data|
    ensures Occurs(data, h, G.HostText(G.Registered(data[h..q]))) && h + |G.HostText(G.Registered(data[h..q]))| == q
    ensures h < q < |data| && data[h] == LBRACKET && data[q] == RBRACKET ==>
              var host := G.Literal(data[h + 1..q]);
              Occurs(data, h, G.HostText(host)) && h + |G.HostText(host)| == q + 1
  {
    hide Occurs;
    SliceAt(data, h, q);
    if h < q < |data| {
      var text := data[h + 1..q];
      SliceAt(data, h + 1, q);
      OccursOne(data, h, LBRACKET);
      OccursOne(data, q, RBRACKET);
      OccursConcat(data, h, [LBRACKET], text);
      OccursConcat(data, h, [LBRACKET] + text, [RBRACKET]);
    }
  }

  lemma HostSound(l: Line, data: Bytes, h: nat) returns (host: G.Host, l': Line)
    requires h <= |data| && l.state == HostStart && Complete(Run(l, data, h))
    ensures G.ValidHost(host) && Occurs(data, h, G.HostText(host))
    ensures var q := h + |G.HostText(host)|;
            && l'.state == HostState(host) && q <= |data| && Run(l, data, h) == Run(l', data, q)
            && (l'.state == Host && q < |data| ==> !IsHostByte(data[q]))
            && l' == l.WithAuth(l.auth.(hostStart := h), l'.state)
  {
    hide Run, Step, Occurs, G.HostText;
    HostStartRun(l, data, h);
    if data[h] == LBRACKET {
      var q := Skip(IsLiteralByte, data, h + 1);
      LiteralRun(l.WithAuth(l.auth.(hostStart := h), HostIpLiteral), data, h + 1);
      host := G.Literal(data[h + 1..q]);
      HostTextAt(data, h, q);
    } else {
      var q := Skip(IsHostByte, data, h);
      HostRun(l.WithAuth(l.auth.(hostStart := h), Host), data, h);
      host := G.Registered(data[h..q]);
      HostTextAt(data, h, q);
    }
    l' := l.WithAuth(l.auth.(hostStart := h), HostState(host));
  }

  // ---------- the authority ----------

  function AuthorityAt(old_: Authority, a: G.Authority, p: nat): Authority {
    var s := p + |a.schema|;
    WithPort(Authority(p, s, s + 3, old_.hostEnd, old_.portEnd), s + 3 + |G.HostText(a.host)|, a.port)
  }

  lemma SchemaTurn(l: Line, data: Bytes, p: nat)
    requires p < |data| && l.state == SpacesBeforeUri && IsLetter(data[p])
    ensures Step(l, data, p) == Next(l.WithAuth(l.auth.(schemaStart := p), Schema))
  {
    hide StepHost, StepSchema, StepPath, StepUri, StepHttp09, StepProtocol, StepVersion, StepAlmostDone;
  }

  lemma SchemaNext(l: Line, data: Bytes)
    requires l.state == Schema
    ensures forall i :: 0 <= i < |data| ==>
              Step(l, data, i) == if IsLetter(data[i]) then Next(l)
                                  else if data[i] == COLON then Next(l.WithAuth(l.auth.(schemaEnd := i), SchemaSlash))
                                  else Fail(l, INVALID_REQUEST)
  {
    hide StepHost, StepMethod, StepPath, StepUri, StepHttp09, StepProtocol, StepVersion, StepAlmostDone;
  }

  lemma SchemaRun(l: Line, data: Bytes, p: nat)
    requires p < |data| && l.state == SpacesBeforeUri && IsLetter(data[p])
    ensures var q := Skip(IsLetter, data, p);
            if q < |data| && data[q] == COLON then
              Run(l, data, p) ==
              Run(l.WithAuth(l.auth.(schemaStart := p, schemaEnd := q), SchemaSlash), data, q + 1)
            else !Complete(Run(l, data, p))
  {
    hide Run, Step;
    var q := Skip(IsLetter, data, p);
    var l' := l.WithAuth(l.auth.(schemaStart := p), Schema);
    SchemaTurn(l, data, p);
    Turn(l, data, p);
    SchemaNext(l', data);
    SkipRun(IsLetter, l', data, p + 1);
    if q < |data| { Turn(l', data, q); } else { AtEnd(l', data); }
  }

  lemma SlashesRun(l: Line, data: Bytes, p: nat)
    requires p <= |data| && l.state == SchemaSlash
    ensures if Occurs(data, p, [SLASH, SLASH]) then Run(l, data, p) == Run(l.To(HostStart), data, p + 2)
            else !Complete(Run(l, data, p))
  {
    hide Run, Step, Complete;
    assert [SLASH, SLASH] == [SLASH] + [SLASH];
    OccursConcat(data, p, [SLASH], [SLASH]);
    ExpectRun(l, data, p, SLASH, SchemaSlashSlash);
    if Occurs(data, p, [SLASH]) {
      ExpectRun(l.To(SchemaSlashSlash), data, p + 1, SLASH, HostStart);
    }
  }

  lemma OccursAuthority(data: Bytes, p: nat, a: G.Authority)
    ensures Occurs(data, p, G.AuthorityText(a)) <==>
            var s := p + |a.schema|;
            var h := s + 3 + |G.HostText(a.host)|;
            && Occurs(data, p, a.schema) && Occurs(data, s, [COLON]) && Occurs(data, s + 1, [SLASH, SLASH])
            && Occurs(data, s + 3, G.HostText(a.host)) && Occurs(data, h, G.PortText(a.port))
  {
    hide Occurs;
    var s := p + |a.schema|;
    var sep := [COLON, SLASH, SLASH];
    OccursConcat(data, p, a.schema + sep + G.HostText(a.host), G.PortText(a.port));
    OccursConcat(data, p, a.schema + sep, G.HostText(a.host));
    OccursConcat(data, p, a.schema, sep);
    assert sep == [COLON] + [SLASH, SLASH];
    OccursConcat(data, s, [COLON], [SLASH, SLASH]);
  }

  lemma SchemaComplete(l: Line, data: Bytes, p: nat, schema: Bytes)
    requires l.state == SpacesBeforeUri && schema != [] && All(schema, IsLetter)
    requires var s := p + |schema|;
             Occurs(data, p, schema) && Occurs(data, s, [COLON]) && Occurs(data, s + 1, [SLASH, SLASH])
    ensures var s := p + |schema|;
            Run(l, data, p) ==
            Run(l.WithAuth(l.auth.(schemaStart := p, schemaEnd := s), HostStart), data, s + 3)
  {
    hide Run, Step;
    var s := p + |schema|;
    assert data[p] == schema[0];
    OccursOne(data, s, COLON);
    OccursClass(IsLetter, data, p, schema);
    SchemaRun(l, data, p);
    SlashesRun(l.WithAuth(l.auth.(schemaStart := p, schemaEnd := s), SchemaSlash), data, s + 1);
  }

  lemma {:induction false} AuthorityComplete(l: Line, data: Bytes, p: nat, a: G.Authority)
    requires l.state == SpacesBeforeUri && G.ValidAuthority(a)
    requires Occurs(data, p, G.AuthorityText(a)) && EndsAuthority(data, p + |G.AuthorityText(a)|)
    ensures var e := p + |G.AuthorityText(a)|;
            Run(l, data, p) ==
            Run(Arrived(l.(auth := AuthorityAt(l.auth, a, p)), data, e), data, e + 1)
  {
    hide Run, Step, Occurs, Arrived;
    OccursAuthority(data, p, a);
    SchemaComplete(l, data, p, a.schema);
    var s := p + |a.schema|;
    var l1 := l.WithAuth(l.auth.(schemaStart := p, schemaEnd := s), HostStart);
    var h := s + 3 + |G.HostText(a.host)|;
    if a.port.Some? {
      OccursConcat(data, h, [COLON], a.port.value);
      OccursOne(data, h, COLON);
    }
    HostComplete(l1, data, s + 3, a.host);
    var l2 := l1.WithAuth(l1.auth.(hostStart := s + 3), HostState(a.host));
    PortComplete(l2, data, h, a.port);
    ArrivedAnyState(l.(auth := AuthorityAt(l.auth, a, p)), l2.state, data, p + |G.AuthorityText(a)|);
  }

  lemma SchemaSound(l: Line, data: Bytes, p: nat) returns (schema: Bytes)
    requires p < |data| && l.state == SpacesBeforeUri && IsLetter(data[p])
    requires Complete(Run(l, data, p))
    ensures schema != [] && All(schema, IsLetter)
    ensures var s := p + |schema|;
            && Occurs(data, p, schema) && Occurs(data, s, [COLON]) && Occurs(data, s + 1, [SLASH, SLASH])
            && s + 3 <= |data|
  {
    hide Run, Step, Complete;
    var s := Skip(IsLetter, data, p);
    SchemaRun(l, data, p);
    SlashesRun(l.WithAuth(l.auth.(schemaStart := p, schemaEnd := s), SchemaSlash), data, s + 1);
    schema := data[p..s];
    OccursOne(data, s, COLON);
  }

  lemma AuthoritySound(l: Line, data: Bytes, p: nat) returns (a: G.Authority)
    requires p < |data| && l.state == SpacesBeforeUri && IsLetter(data[p])
    requires Complete(Run(l, data, p))
    ensures G.ValidAuthority(a)
    ensures Occurs(data, p, G.AuthorityText(a)) && EndsAuthority(data, p + |G.AuthorityText(a)|)
  {
    hide Run, Step, Complete, Occurs;
    var schema := SchemaSound(l, data, p);
    var s := p + |schema|;
    SchemaComplete(l, data, p, schema);
    var l1 := l.WithAuth(l.auth.(schemaStart := p, schemaEnd := s), HostStart);
    var host, l2 := HostSound(l1, data, s + 3);
    var port := PortSound(l2, data, s + 3 + |G.HostText(host)|);
    a := G.Authority(schema, host, port);
    OccursAuthority(data, p, a);
  }
}
