/** What the attribution rewrite guarantees: canonical values, and a fixed point after two applications. */
module AttributionResults {
  import opened Seqs
  import opened Text
  import opened Attribution

  // The walk reaches exactly the string leaves behind whitelisted keys, at most six steps down.

  /** The string at the end of a path of child positions, if every dictionary key on the way is whitelisted. */
  function LeafAt(v: Json, path: seq<nat>): Option<string>
    decreases |path|
  {
    match v
    case JText(s) => if path == [] then Some(s) else None
    case JList(items) =>
      if path != [] && path[0] < |items| then LeafAt(items[path[0]], path[1..]) else None
    case JDict(entries) =>
      if path != [] && path[0] < |entries| && Whitelisted(entries[path[0]].key) then
        LeafAt(entries[path[0]].value, path[1..])
      else None
    case _ => None
  }

  ghost predicate Reaches(v: Json, depth: nat, s: string) {
    exists path: seq<nat> :: depth + |path| <= 6 && LeafAt(v, path) == Some(s)
  }

  lemma {:induction false} ItemLeavesMember(items: seq<Json>, depth: nat, s: string)
    ensures s in ItemLeaves(items, depth) <==> exists i :: 0 <= i < |items| && s in Leaves(items[i], depth)
  {
    if items != [] {
      ItemLeavesMember(items[..|items| - 1], depth, s);
    }
  }

  lemma {:induction false} EntryLeavesMember(entries: seq<Pair>, depth: nat, s: string)
    ensures s in EntryLeaves(entries, depth) <==>
            exists i :: 0 <= i < |entries| && Whitelisted(entries[i].key) && s in Leaves(entries[i].value, depth)
  {
    if entries != [] {
      EntryLeavesMember(entries[..|entries| - 1], depth, s);
    }
  }

  lemma {:induction false} LeavesReach(v: Json, depth: nat, s: string)
    ensures s in Leaves(v, depth) <==> Reaches(v, depth, s)
    decreases v, 1
  {
    if depth <= MAX_DEPTH {
      match v {
        case JText(t) =>
          if s == t {
            assert LeafAt(v, []) == Some(s);
          }
        case JList(_) =>
          ListLeavesReach(v, depth, s);
        case JDict(_) =>
          DictLeavesReach(v, depth, s);
        case _ =>
      }
    }
  }

  lemma {:induction false} ListLeavesReach(v: Json, depth: nat, s: string)
    requires v.JList? && depth <= MAX_DEPTH
    ensures s in ItemLeaves(v.items, depth + 1) <==> Reaches(v, depth, s)
    decreases v, 0
  {
    ItemLeavesMember(v.items, depth + 1, s);
    ReachThroughList(v, depth, s);
    forall i | 0 <= i < |v.items|
      ensures s in Leaves(v.items[i], depth + 1) <==> Reaches(v.items[i], depth + 1, s)
    {
      LeavesReach(v.items[i], depth + 1, s);
    }
  }

  lemma {:induction false} DictLeavesReach(v: Json, depth: nat, s: string)
    requires v.JDict? && depth <= MAX_DEPTH
    ensures s in EntryLeaves(v.entries, depth + 1) <==> Reaches(v, depth, s)
    decreases v, 0
  {
    EntryLeavesMember(v.entries, depth + 1, s);
    ReachThroughDict(v, depth, s);
    forall i | 0 <= i < |v.entries|
      ensures s in Leaves(v.entries[i].value, depth + 1) <==> Reaches(v.entries[i].value, depth + 1, s)
    {
      LeavesReach(v.entries[i].value, depth + 1, s);
    }
  }

  lemma {:induction false} ReachThroughList(v: Json, depth: nat, s: string)
    requires v.JList? && depth <= MAX_DEPTH
    ensures Reaches(v, depth, s) <==> exists i :: 0 <= i < |v.items| && Reaches(v.items[i], depth + 1, s)
  {
    if i :| 0 <= i < |v.items| && Reaches(v.items[i], depth + 1, s) {
      var path: seq<nat> :| depth + 1 + |path| <= 6 && LeafAt(v.items[i], path) == Some(s);
      ChildPath(v, i, path);
    }
    if path: seq<nat> :| depth + |path| <= 6 && LeafAt(v, path) == Some(s) {
      assert Reaches(v.items[path[0]], depth + 1, s) by {
        assert depth + 1 + |path[1..]| <= 6 && LeafAt(v.items[path[0]], path[1..]) == Some(s);
      }
    }
  }

  lemma {:induction false} ReachThroughDict(v: Json, depth: nat, s: string)
    requires v.JDict? && depth <= MAX_DEPTH
    ensures Reaches(v, depth, s) <==>
            exists i :: && 0 <= i < |v.entries| && Whitelisted(v.entries[i].key)
                        && Reaches(v.entries[i].value, depth + 1, s)
  {
    if i :| 0 <= i < |v.entries| && Whitelisted(v.entries[i].key) && Reaches(v.entries[i].value, depth + 1, s) {
      var path: seq<nat> :| depth + 1 + |path| <= 6 && LeafAt(v.entries[i].value, path) == Some(s);
      ChildPath(v, i, path);
    }
    if path: seq<nat> :| depth + |path| <= 6 && LeafAt(v, path) == Some(s) {
      assert Reaches(v.entries[path[0]].value, depth + 1, s) by {
        assert depth + 1 + |path[1..]| <= 6 && LeafAt(v.entries[path[0]].value, path[1..]) == Some(s);
      }
    }
  }

  lemma {:induction false} ChildPath(v: Json, i: nat, path: seq<nat>)
    requires v.JList? ==> i < |v.items|
    requires v.JDict? ==> i < |v.entries| && Whitelisted(v.entries[i].key)
    requires v.JList? || v.JDict?
    ensures LeafAt(v, [i] + path) == LeafAt(if v.JList? then v.items[i] else v.entries[i].value, path)
  {
    assert ([i] + path)[1..] == path;
  }

  /** For a payment response, `word in text` means: some reachable string leaf mentions the word. */
  lemma {:induction false} ResponseMentionsIff(parse: Parser, response: Json, word: string)
    requires word != "" && ' ' !in word && !response.JText?
    ensures Contains(Lower(Join(AllParts(parse, [response]))), word) <==>
            exists s :: Reaches(response, 0, s) && Contains(Lower(s), word)
  {
    var parts := AllParts(parse, [response]);
    assert [response][..0] == [] && AllParts(parse, []) == [];
    assert parts == [] + Parts(parse, response);
    ContainsInJoin(parts, word);
    if p :| p in parts && Contains(Lower(p), word) {
      LeavesReach(response, 0, p);
    }
    if s :| Reaches(response, 0, s) && Contains(Lower(s), word) {
      LeavesReach(response, 0, s);
      assert s in parts;
    }
  }

  // One application.

  lemma {:induction false} EmptyLabel()
    ensures ThroughOf(Key("")) == None && ProviderOf(Key("")) == None && MethodOf(Key("")) == None
  {
    assert Key("") == "";
  }

  /** After one application every present field is canonical or NULL, and the three fields fit together. */
  lemma {:induction false} OneApplicationIsCanonical(parse: Parser, o: Obj)
    ensures var r := Attributed(parse, o);
            && (r.through.Holds? && r.through.value.Some? ==> exists t :: r.through.value.value == ThroughLabel(t))
            && (r.provider.Holds? && r.provider.value.Some? ==> exists p :: r.provider.value.value == ProviderLabel(p))
            && (r.payMethod.Holds? && r.payMethod.value.Some? ==> exists m :: r.payMethod.value.value == MethodLabel(m))
            && (r.payMethod == Holds(Some(MethodLabel(GiftVoucher))) ==>
                  r.provider.Absent? || r.provider == Holds(None))
            && (r.payMethod == Holds(None) && r.provider.Holds? ==>
                  || r.provider == Holds(None)
                  || (r.provider == Holds(Some(ProviderLabel(MyFatoorah)))
                      && !IsPaid(o.statuses) && !CardWord(parse, Sources(o))))
  {
    var m := ResolvedMethod(parse, o);
    if o.payMethod.Holds? && m.Some? {
      LabelsDiffer(m.value, GiftVoucher);
    }
  }

  lemma {:induction false} LabelsDiffer(a: Method, b: Method)
    ensures MethodLabel(a) == MethodLabel(b) ==> a == b
  {
    MethodLabelIsCanonical(a);
    MethodLabelIsCanonical(b);
  }

  // Applying it again.

  lemma {:induction false} LabelMentions(parse: Parser, m: Method, word: string)
    ensures Mentions(parse, JText(MethodLabel(m)), word) <==> Contains(MethodLabel(m), word)
  {
    var text := MethodLabel(m);
    MethodLabelIsCanonical(m);
    MethodLabelWords(m);
    assert text[0] == MethodWords(m).0[0];
    assert Parts(parse, JText(text)) == [text];
  }

  lemma {:induction false} NothingMentionsNull(parse: Parser, word: string)
    ensures !Mentions(parse, JNull, word)
  {
  }

  /** What a stored method label says to the provider hint. */
  lemma {:induction false} LabelHints(m: Method)
    requires m != GiftVoucher
    ensures Contains(MethodLabel(m), "boubyan") <==> m == BoubyanLink
    ensures Contains(MethodLabel(m), "deema") <==> m == DeemaLink
  {
    match m {
      case KnetCard =>
        LacksChar("knet_card", "boubyan", 0);
        LacksChar("knet_card", "deema", 3);
      case ApplePay =>
        LacksChar("apple_pay", "boubyan", 0);
        LacksChar("apple_pay", "deema", 0);
      case DeemaLink =>
        LacksChar("deema_link", "boubyan", 0);
        assert FoundAt("deema_link", "deema", 0);
      case BoubyanLink =>
        LacksChar("boubyan_link", "deema", 0);
        assert FoundAt("boubyan_link", "boubyan", 0);
    }
  }

  lemma {:induction false} TwoHints(parse: Parser, a: Json, b: Json, word: string)
    ensures AnyMentions(parse, [a, b], word) <==> Mentions(parse, a, word) || Mentions(parse, b, word)
  {
    assert a in [a, b] && b in [a, b];
  }

  lemma {:induction false} ThreeSources(parse: Parser, a: Json, b: Json, c: Json, word: string)
    ensures AnyMentions(parse, [a, b, c], word) <==>
            Mentions(parse, a, word) || Mentions(parse, b, word) || Mentions(parse, c, word)
  {
    assert a in [a, b, c] && b in [a, b, c] && c in [a, b, c];
  }

  /** The rewritten gateway mentions nothing the original did not. */
  lemma {:induction false} GatewayOnlyShrinks(parse: Parser, o: Obj, word: string)
    ensures Mentions(parse, SourceOf(Attributed(parse, o).gateway), word) ==> Mentions(parse, SourceOf(o.gateway), word)
  {
    NothingMentionsNull(parse, word);
  }

  /** The stored provider after one application: the resolved one, unless the method is a gift voucher. */
  ghost function StoredProvider(parse: Parser, o: Obj): Option<Provider> {
    if ResolvedMethod(parse, o) == Some(GiftVoucher) then None else ResolvedProvider(parse, o)
  }

  /** The provider the second application resolves. */
  lemma {:induction false} ProviderResolvedAgain(parse: Parser, o: Obj)
    requires o.provider.Holds?
    ensures var m, again := ResolvedMethod(parse, o), ResolvedProvider(parse, Attributed(parse, o));
            if StoredProvider(parse, o).Some? then again == StoredProvider(parse, o)
            else if m == Some(GiftVoucher) then true
            else if m == Some(BoubyanLink) then again == Some(Boubyan)
            else if m == Some(DeemaLink) then again == Some(Tap)
            else again == None
  {
    var r, m := Attributed(parse, o), ResolvedMethod(parse, o);
    var stored := StoredProvider(parse, o);
    EmptyLabel();
    if stored.Some? {
      ProviderLabelIsCanonical(stored.value);
    } else if m != Some(GiftVoucher) {
      HintsFoundNothing(parse, o);
      var gw, pm := SourceOf(r.gateway), SourceOf(r.payMethod);
      TwoHints(parse, gw, pm, "boubyan");
      TwoHints(parse, gw, pm, "deema");
      GatewayOnlyShrinks(parse, o, "boubyan");
      GatewayOnlyShrinks(parse, o, "deema");
      if m.Some? {
        LabelMentions(parse, m.value, "boubyan");
        LabelMentions(parse, m.value, "deema");
        LabelHints(m.value);
      } else {
        NothingMentionsNull(parse, "boubyan");
        NothingMentionsNull(parse, "deema");
      }
    }
  }

  lemma {:induction false} HintsFoundNothing(parse: Parser, o: Obj)
    requires o.provider.Holds? && ResolvedProvider(parse, o) == None
    ensures !Mentions(parse, SourceOf(o.gateway), "boubyan") && !Mentions(parse, SourceOf(o.gateway), "deema")
  {
    TwoHints(parse, SourceOf(o.gateway), SourceOf(o.payMethod), "boubyan");
    TwoHints(parse, SourceOf(o.gateway), SourceOf(o.payMethod), "deema");
  }

  lemma {:induction false} SourcesOnlyShrink(parse: Parser, o: Obj, word: string)
    requires ResolvedMethod(parse, o).None?
    ensures AnyMentions(parse, Sources(Attributed(parse, o)), word) ==> AnyMentions(parse, Sources(o), word)
  {
    var r := Attributed(parse, o);
    ThreeSources(parse, SourceOf(o.payMethod), SourceOf(o.gateway), o.data, word);
    ThreeSources(parse, SourceOf(r.payMethod), SourceOf(r.gateway), r.data, word);
    GatewayOnlyShrinks(parse, o, word);
    NothingMentionsNull(parse, word);
  }

  /** The method is settled by the first application. */
  lemma {:induction false} MethodSettlesAtOnce(parse: Parser, o: Obj)
    ensures ResolvedMethod(parse, Attributed(parse, o)) == ResolvedMethod(parse, o)
  {
    var r, m := Attributed(parse, o), ResolvedMethod(parse, o);
    if o.payMethod.Holds? {
      if m.Some? {
        MethodLabelIsCanonical(m.value);
      } else {
        EmptyLabel();
        if o.provider.Holds? {
          ProviderResolvedAgain(parse, o);
        }
        UndecidedStaysUndecided(parse, o);
      }
    }
  }

  lemma {:induction false} UndecidedStaysUndecided(parse: Parser, o: Obj)
    requires o.payMethod.Holds? && ResolvedMethod(parse, o).None?
    requires ResolvedProvider(parse, Attributed(parse, o)) == ResolvedProvider(parse, o)
    ensures var r := Attributed(parse, o);
            MethodFor(parse, Sources(r), ResolvedProvider(parse, r), IsPaid(r.statuses)) == None
  {
    SourcesOnlyShrink(parse, o, "apple");
    SourcesOnlyShrink(parse, o, "deema");
    SourcesOnlyShrink(parse, o, "boubyan");
    SourcesOnlyShrink(parse, o, "voucher");
    SourcesOnlyShrink(parse, o, "knet");
    SourcesOnlyShrink(parse, o, "visa");
    SourcesOnlyShrink(parse, o, "master");
    SourcesOnlyShrink(parse, o, "mada");
  }

  lemma {:induction false} OtherFieldsSettle(parse: Parser, o: Obj)
    ensures var r := Attributed(parse, o);
            var again := Attributed(parse, r);
            again.through == r.through && again.payMethod == r.payMethod && again.gateway == r.gateway
  {
    EmptyLabel();
    MethodSettlesAtOnce(parse, o);
    var t := ThroughOf(Key(TextOf(o.through)));
    if t.Some? {
      ThroughLabelIsCanonical(t.value);
    }
  }

  /** The records one application is not enough for: a link method with no provider to go with it. */
  ghost predicate LinkWithoutProvider(r: Obj) {
    && r.provider == Holds(None)
    && (r.payMethod == Holds(Some(MethodLabel(DeemaLink))) || r.payMethod == Holds(Some(MethodLabel(BoubyanLink))))
  }

  /** A second application changes the record exactly when the first left a link method without a provider. */
  lemma {:induction false} OneIsNotEnoughIff(parse: Parser, o: Obj)
    ensures var r := Attributed(parse, o);
            Attributed(parse, r) != r <==> LinkWithoutProvider(r)
  {
    var r, m := Attributed(parse, o), ResolvedMethod(parse, o);
    OtherFieldsSettle(parse, o);
    MethodSettlesAtOnce(parse, o);
    if m.Some? {
      LabelsDiffer(m.value, DeemaLink);
      LabelsDiffer(m.value, BoubyanLink);
    }
    if o.provider.Holds? {
      ProviderResolvedAgain(parse, o);
    }
  }

  /** The same condition on the record as it comes in: nothing names a provider, and something names a link method. */
  ghost predicate NamesLinkWithoutProvider(parse: Parser, o: Obj) {
    && o.provider.Holds? && o.payMethod.Holds?
    && ProviderOf(Key(TextOf(o.provider))).None?
    && !Mentions(parse, SourceOf(o.gateway), "boubyan") && !Mentions(parse, SourceOf(o.payMethod), "boubyan")
    && !Mentions(parse, SourceOf(o.gateway), "deema") && !Mentions(parse, SourceOf(o.payMethod), "deema")
    && var named := if MethodOf(Key(TextOf(o.payMethod))).Some? then MethodOf(Key(TextOf(o.payMethod)))
                    else NamedMethod(parse, Sources(o));
       named == Some(DeemaLink) || named == Some(BoubyanLink)
  }

  /** Exactly which records need a second application, by what their caller can see before the first. */
  lemma {:induction false} SecondNeededIff(parse: Parser, o: Obj)
    ensures var r := Attributed(parse, o);
            Attributed(parse, r) != r <==> NamesLinkWithoutProvider(parse, o)
  {
    OneIsNotEnoughIff(parse, o);
    TwoHints(parse, SourceOf(o.gateway), SourceOf(o.payMethod), "boubyan");
    TwoHints(parse, SourceOf(o.gateway), SourceOf(o.payMethod), "deema");
    var m := ResolvedMethod(parse, o);
    if m.Some? {
      LabelsDiffer(m.value, DeemaLink);
      LabelsDiffer(m.value, BoubyanLink);
    }
  }

  /** Two applications always suffice. */
  lemma {:induction false} TwoApplicationsSuffice(parse: Parser, o: Obj)
    ensures var r := Attributed(parse, Attributed(parse, o));
            Attributed(parse, r) == r
  {
    var r := Attributed(parse, o);
    var m := ResolvedMethod(parse, o);
    OneIsNotEnoughIff(parse, r);
    OtherFieldsSettle(parse, o);
    MethodSettlesAtOnce(parse, o);
    MethodSettlesAtOnce(parse, r);
    if o.provider.Holds? {
      ProviderResolvedAgain(parse, o);
    }
    if m.Some? {
      LabelsDiffer(m.value, DeemaLink);
      LabelsDiffer(m.value, BoubyanLink);
    }
  }

  /** The two-step case arises: only the payment data names Deema, so the provider follows one write later. */
  lemma {:induction false} DeemaOnlyInPaymentData(parse: Parser, o: Obj)
    requires o.provider == Holds(None) && o.payMethod == Holds(None) && o.gateway == Holds(None)
    requires o.data == JDict([Pair("source", JText("deema"))])
    ensures var r := Attributed(parse, o);
            && r.provider == Holds(None)
            && Attributed(parse, r).provider == Holds(Some(ProviderLabel(Tap)))
  {
    var r := Attributed(parse, o);
    EmptyLabel();
    forall word
      ensures !Mentions(parse, JNull, word)
    {
      NothingMentionsNull(parse, word);
    }
    TwoHints(parse, JNull, JNull, "boubyan");
    TwoHints(parse, JNull, JNull, "deema");
    DataSaysDeema(parse, o.data);
    ThreeSources(parse, JNull, JNull, o.data, "apple");
    ThreeSources(parse, JNull, JNull, o.data, "deema");
    assert ResolvedMethod(parse, o) == Some(DeemaLink);
    ProviderResolvedAgain(parse, o);
    MethodSettlesAtOnce(parse, o);
  }

  lemma {:induction false} DataSaysDeema(parse: Parser, data: Json)
    requires data == JDict([Pair("source", JText("deema"))])
    ensures Mentions(parse, data, "deema") && !Mentions(parse, data, "apple")
  {
    DeemaParts(parse, data);
    assert "deema" in Parts(parse, data);
    KeyOfWord("deema");
    assert FoundAt("deema", "deema", 0);
    assert !FoundAt("deema", "apple", 0);
  }

  lemma {:induction false} DeemaParts(parse: Parser, data: Json)
    requires data == JDict([Pair("source", JText("deema"))])
    ensures Parts(parse, data) == ["deema"]
  {
    var entries := [Pair("source", JText("deema"))];
    KeyOfWord("source");
    assert Whitelisted(entries[0].key);
    assert entries[..0] == [];
    assert EntryLeaves([], 1) == [];
    assert EntryLeaves(entries, 1) == [] + Leaves(JText("deema"), 1);
  }
}
