/**
 * What a stored auction state means to a starting actor
 * (apps/auction-engine/src/actor/runtime.rs), said of the documents themselves.
 */
module StoredConfig {
  import opened Wrappers
  import opened Bidding
  import opened Actor

  // ---------- the document the scheduler writes ----------

  function KindWord(kind: AuctionType): string {
    match kind
    case Reverse => "REVERSE"
    case Forward => "FORWARD"
  }

  /** The two records of apps/scheduler/src/main.rs:198-204 that an actor reads. */
  function Written(cfg: Config, endMs: int): StateDocument {
    StateDocument(
      Some(Fields(Some(cfg.startingPrice), Some(endMs), NoType, None, None)),
      None,
      Some(Fields(None, None, TypeText(KindWord(cfg.kind)), Some(cfg.step), cfg.reserve)))
  }

  /** Every usable configuration loads back as it was written, with its deadline. */
  lemma WrittenLoadsBack(cfg: Config, endMs: int, now: int)
    requires cfg.step > 0.0 && (cfg.reserve.Some? ==> cfg.reserve.value >= 0.0)
    ensures ConfigOf(Some(Written(cfg, endMs))) == cfg && EndOf(Some(Written(cfg, endMs)), now) == endMs
  {
    ForwardInAnyCase(TypeText("FORWARD"));
    ForwardInAnyCase(TypeText("REVERSE"));
    assert "REVERSE"[0] != "FORWARD"[0] && "REVERSE"[0] != "forward"[0];
  }

  // ---------- any document ----------

  /** The word, each letter in either case. */
  ghost predicate IsForwardWord(text: string) {
    |text| == 7 && forall i :: 0 <= i < 7 ==> text[i] == "FORWARD"[i] || text[i] == "forward"[i]
  }

  lemma ForwardInAnyCase(field: TypeField)
    ensures SaysForward(field) <==> field.TypeText? && IsForwardWord(field.text)
  {
    if field.TypeText? && |field.text| == 7 {
      var t := field.text;
      assert forall i :: 0 <= i < 7 ==> Upper(t)[i] == UpperChar(t[i]);
      if IsForwardWord(t) {
        assert Upper(t) == "FORWARD";
      }
    }
  }

  /** A record's kind, step and reserve: any other text is reverse, and unusable numbers are defaulted. */
  ghost predicate RulesFrom(c: Fields, cfg: Config) {
    && (cfg.kind == Forward <==> c.auctionType.TypeText? && IsForwardWord(c.auctionType.text))
    && (c.step.Some? && c.step.value > 0.0 ==> cfg.step == c.step.value)
    && (c.step.None? || c.step.value <= 0.0 ==> cfg.step == 1.0)
    && (c.reserve.Some? && c.reserve.value >= 0.0 ==> cfg.reserve == c.reserve)
    && (c.reserve.None? || c.reserve.value < 0.0 ==> cfg.reserve == None)
  }

  /**
   * The rules come from the config record, else from the auction record, else from the
   * shipment record. The code asks first whether the auction record has a type; the answer
   * makes no difference, because that record is the fallback either way.
   */
  lemma RulesFromFirstRecord(doc: StateDocument, c: Fields)
    requires
      || doc.config == Some(c)
      || (doc.config.None? && doc.auction == Some(c))
      || (doc.config.None? && doc.auction.None? && doc.shipment == Some(c))
    ensures RulesFrom(c, ConfigOf(Some(doc)))
  {
    ForwardInAnyCase(c.auctionType);
  }

  /** Starting price and deadline come from the auction record, else from the shipment record. */
  lemma PriceFromFirstRecord(doc: StateDocument, r: Fields, now: int)
    requires doc.auction == Some(r) || (doc.auction.None? && doc.shipment == Some(r))
    ensures ConfigOf(Some(doc)).startingPrice == if r.startingPrice.Some? then r.startingPrice.value else MAX_PRICE
    ensures EndOf(Some(doc), now) == if r.endTime.Some? then r.endTime.value else now + 180_000
  {
  }

  /** A document with neither record, and no document at all: a reverse auction from the largest double. */
  lemma Defaults(doc: StateDocument, now: int)
    ensures ConfigOf(None) == Config(Reverse, MAX_PRICE, 1.0, None) && EndOf(None, now) == now + 180_000
    ensures MAX_PRICE == 179769313486231570814527423731704356798070567525844996598917476803157260780028538760589558632766878171540458953514382464234321326889464182768467546703537516986049910576551282076245490090389328944075868508455133942304583236903222948165808559332123347764797926204144723168738177180919299881250404026184124858368.0
    ensures doc.auction.None? && doc.shipment.None? ==>
      && ConfigOf(Some(doc)).startingPrice == MAX_PRICE && EndOf(Some(doc), now) == now + 180_000
      && (doc.config.None? ==> ConfigOf(Some(doc)) == ConfigOf(None))
  {
  }

  /** The per-auction key is read first; the shared hash only when nothing is stored under it. */
  lemma KeyBeforeHash(key: KeyContent, hash: KeyContent)
    ensures key.Readable? ==> DocumentOf(key, hash) == Some(key.document)
    ensures key.Unparsable? ==> DocumentOf(key, hash) == None
    ensures key.NotStored? && hash.Readable? ==> DocumentOf(key, hash) == Some(hash.document)
    ensures key.NotStored? && !hash.Readable? ==> DocumentOf(key, hash) == None
  {
  }
}
