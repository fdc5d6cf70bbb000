/**
 * The decision and extraction rules of the CROUS housing search check and
 * the notification message it sends. The HTTP fetch and the HTML parsing are
 * outside the model: a fetched page arrives as its status code, the text of
 * its results heading (if the heading is there) and its offer cards, each
 * card carrying the elements the selectors would find (or not).
 */
module Scraper {
  import opened Wrappers
  import opened Text

  /** Prefix of every offer link: the site's base URL. */
  const SITE_BASE := "https://trouverunlogement.lescrous.fr"
  /** Heading text the site shows when the search found nothing. */
  const NO_RESULTS_TEXT := "Aucun logement trouvé"
  /** Subject header of every notification. */
  const SUBJECT := "New Housing Results Found"
  /** Line between the message and the list of offers in the plain-text body. */
  const OFFERS_INTRO := "\n\nHere are the available offers:\n"
  /** Separator of the addresses in an alert's `emails` field. */
  const EMAIL_SEPARATOR := ','

  /** The `a` element inside a card's `h3.fr-card__title`, with its `href` attribute if it has one. */
  datatype TitleLink = TitleLink(text: string, href: Option<string>)

  /** The `img.fr-responsive-img` element of a card, with its `src` attribute if it has one. */
  datatype Image = Image(src: Option<string>)

  /**
   * One `li.fr-col-12` element of the results page. A field is `None` when
   * the element the scraper looks up is absent from the card.
   */
  datatype Card = Card(
    title: Option<TitleLink>,
    price: Option<string>,
    description: Option<string>,
    image: Option<Image>)

  /** The outcome of the GET request: an exception, or a response already parsed into its parts. */
  datatype Page =
    | FetchError
    | Response(statusCode: int, heading: Option<string>, cards: seq<Card>)

  /** One offer record of the notification. */
  datatype Offer = Offer(title: string, link: string, price: string, description: string, image: string)

  /** The notification as handed to SMTP: envelope recipients, `To` and `Subject` headers, plain-text part and the offers it lists. */
  datatype Email = Email(recipients: seq<string>, to: string, subject: string, text: string, offers: seq<Offer>)

  /** A card the extraction can read without raising: every element and attribute it touches is present. */
  predicate Complete(card: Card) {
    && card.title.Some? && card.title.value.href.Some?
    && card.price.Some?
    && card.description.Some?
    && card.image.Some? && card.image.value.src.Some?
  }

  /**
   * The offer record built from a complete card: its title, price and
   * description with surrounding white space removed, its link under the
   * site's base URL, and its image source.
   */
  function ToOffer(card: Card): (o: Offer)
    requires Complete(card)
    ensures IsStripped(o.title) && IsStripped(o.price) && IsStripped(o.description)
    ensures |SITE_BASE| <= |o.link| && o.link[..|SITE_BASE|] == SITE_BASE
  {
    Offer(
      Strip(card.title.value.text),
      SITE_BASE + card.title.value.href.value,
      Strip(card.price.value),
      Strip(card.description.value),
      card.image.value.src.value)
  }

  /**
   * The match rule: the request succeeded with status 200, the results
   * heading is present, it does not say that nothing was found, and every
   * offer card can be read (a card that cannot raises, which the check
   * reports as no match).
   */
  predicate Matches(page: Page) {
    && page.Response?
    && page.statusCode == 200
    && page.heading.Some?
    && !ContainsText(page.heading.value, NO_RESULTS_TEXT)
    && forall i :: 0 <= i < |page.cards| ==> Complete(page.cards[i])
  }

  /**
   * The offer loop: one record per card in page order, or `None` (the
   * exception) as soon as one card lacks an element the loop reads.
   */
  method ExtractOffers(cards: seq<Card>) returns (offers: Option<seq<Offer>>)
    ensures offers.Some? <==> forall i :: 0 <= i < |cards| ==> Complete(cards[i])
    ensures offers.Some? ==> |offers.value| == |cards|
    ensures offers.Some? ==> forall i :: 0 <= i < |cards| ==> offers.value[i] == ToOffer(cards[i])
  {
    var found: seq<Offer> := [];
    for i := 0 to |cards|
      invariant |found| == i
      invariant forall j :: 0 <= j < i ==> Complete(cards[j]) && found[j] == ToOffer(cards[j])
    {
      if !Complete(cards[i]) {
        return None;
      }
      found := found + [ToOffer(cards[i])];
    }
    return Some(found);
  }

  /** The block the plain-text body holds for one offer. */
  function OfferBlock(o: Offer): string {
    o.title + " - " + o.price + "\n" + o.link + "\n\n"
  }

  /** The blocks of all offers, in order. */
  function OfferBlocks(offers: seq<Offer>): string {
    ConcatMap(offers, OfferBlock)
  }

  /**
   * Every offer has its block in the body, after the blocks of the offers
   * before it and before the blocks of the offers after it.
   */
  lemma OfferBlockInOrder(before: seq<Offer>, o: Offer, after: seq<Offer>)
    ensures OfferBlocks(before + [o] + after) == OfferBlocks(before) + OfferBlock(o) + OfferBlocks(after)
  {
    ConcatMapAround(before, o, after, OfferBlock);
  }

  /** The plain-text part: the message, the intro line, then each offer's block in order. */
  method PlainTextBody(message: string, offers: seq<Offer>) returns (text: string)
    ensures text == message + OFFERS_INTRO + OfferBlocks(offers)
  {
    text := message + OFFERS_INTRO;
    for i := 0 to |offers|
      invariant text == message + OFFERS_INTRO + OfferBlocks(offers[..i])
    {
      assert offers[..i + 1] == offers[..i] + [offers[i]];
      ConcatMapSnoc(offers[..i], offers[i], OfferBlock);
      text := text + OfferBlock(offers[i]);
    }
    assert offers[..|offers|] == offers;
  }

  /** The `To` header: the recipients joined by a comma and a space. */
  function ToHeader(recipients: seq<string>): string {
    Join(recipients, ", ")
  }

  /**
   * The recipients of an alert: its `emails` field split at every comma,
   * each piece stripped, in the original order. There is one recipient more
   * than there are commas, none holds a comma or surrounding white space,
   * and an empty field gives a single empty recipient.
   */
  function Recipients(emails: string): (r: seq<string>)
    ensures |r| == Count(emails, EMAIL_SEPARATOR) + 1
    ensures forall i :: 0 <= i < |r| ==> IsStripped(r[i]) && EMAIL_SEPARATOR !in r[i]
    ensures emails == [] ==> r == [[]]
    ensures forall i :: 0 <= i < |r| ==> r[i] == Strip(Split(emails, EMAIL_SEPARATOR)[i])
  {
    var pieces := Split(emails, EMAIL_SEPARATOR);
    StripEachClean(pieces);
    StripEach(pieces)
  }

  /** A field without a comma is one recipient: the field stripped. */
  lemma RecipientsSingle(x: string)
    requires EMAIL_SEPARATOR !in x
    ensures Recipients(x) == [Strip(x)]
  {
    SplitWithoutSeparator(x, EMAIL_SEPARATOR);
  }

  /** Each piece stripped, in order. */
  function StripEach(pieces: seq<string>): seq<string> {
    Map(pieces, Strip)
  }

  /** Stripping pieces without a comma gives stripped pieces without a comma. */
  lemma StripEachClean(pieces: seq<string>)
    requires forall i :: 0 <= i < |pieces| ==> EMAIL_SEPARATOR !in pieces[i]
    ensures forall i :: 0 <= i < |pieces| ==>
      IsStripped(StripEach(pieces)[i]) && EMAIL_SEPARATOR !in StripEach(pieces)[i]
  {
    var r := StripEach(pieces);
    forall i | 0 <= i < |pieces|
      ensures IsStripped(r[i]) && EMAIL_SEPARATOR !in r[i]
    {
      assert r[i] == Strip(pieces[i]);
    }
  }

  /** Padding the first piece with a space does not change what stripping gives. */
  lemma StripEachPadFirst(p: seq<string>)
    requires |p| >= 1
    ensures StripEach([" " + p[0]] + p[1..]) == StripEach(p)
  {
    var q := [" " + p[0]] + p[1..];
    assert q[1..] == p[1..];
    StripSpacePrefix(p[0]);
  }

  /** A space at the front of the field only pads the first recipient. */
  lemma RecipientsSpacePrefix(t: string)
    ensures Recipients(" " + t) == Recipients(t)
  {
    SplitSpacePrefix(t, EMAIL_SEPARATOR);
    StripEachPadFirst(Split(t, EMAIL_SEPARATOR));
  }

  /** The part before the first comma is the first recipient. */
  lemma RecipientsAfterPiece(x: string, t: string)
    requires EMAIL_SEPARATOR !in x
    ensures Recipients(x + [EMAIL_SEPARATOR] + t) == [Strip(x)] + Recipients(t)
  {
    SplitAfterPiece(x, t, EMAIL_SEPARATOR);
  }

  /** The header of two or more recipients: the first, a comma, then a space and the header of the rest. */
  lemma HeaderCons(x: string, tail: seq<string>)
    requires |tail| >= 1
    ensures ToHeader([x] + tail) == x + [EMAIL_SEPARATOR] + (" " + ToHeader(tail))
  {
    assert ([x] + tail)[1..] == tail;
  }

  /** One more address in front of a header that already reads back correctly. */
  lemma HeaderRoundTripStep(x: string, tail: seq<string>)
    requires IsStripped(x) && EMAIL_SEPARATOR !in x
    requires |tail| >= 1 && Recipients(ToHeader(tail)) == tail
    ensures Recipients(ToHeader([x] + tail)) == [x] + tail
  {
    var rest := ToHeader(tail);
    calc {
      Recipients(ToHeader([x] + tail));
      { HeaderCons(x, tail); }
      Recipients(x + [EMAIL_SEPARATOR] + (" " + rest));
      { RecipientsAfterPiece(x, " " + rest); }
      [Strip(x)] + Recipients(" " + rest);
      { RecipientsSpacePrefix(rest); }
      [Strip(x)] + tail;
      [x] + tail;
    }
  }

  /**
   * Reading the `To` header back as an `emails` field gives the recipients
   * back, for any non-empty list of stripped addresses without commas.
   */
  lemma {:induction false} HeaderRoundTrip(recipients: seq<string>)
    requires |recipients| >= 1
    requires forall i :: 0 <= i < |recipients| ==> IsStripped(recipients[i]) && EMAIL_SEPARATOR !in recipients[i]
    ensures Recipients(ToHeader(recipients)) == recipients
    decreases |recipients|
  {
    var x := recipients[0];
    if |recipients| == 1 {
      assert ToHeader(recipients) == x;
      RecipientsSingle(x);
    } else {
      var tail := recipients[1..];
      assert recipients == [x] + tail;
      HeaderRoundTrip(tail);
      HeaderRoundTripStep(x, tail);
    }
  }

  /** The recipients of any field survive a trip through the `To` header. */
  lemma RecipientsThroughHeader(emails: string)
    ensures Recipients(ToHeader(Recipients(emails))) == Recipients(emails)
  {
    HeaderRoundTrip(Recipients(emails));
  }

  /**
   * The notification for a set of offers: the recipients, the `To` header
   * that lists them, the fixed subject, and the plain-text body built from
   * the message and the offers.
   */
  method SendEmail(message: string, offers: seq<Offer>, recipients: seq<string>) returns (mail: Email)
    ensures mail.recipients == recipients && mail.to == ToHeader(recipients) && mail.subject == SUBJECT
    ensures mail.offers == offers
    ensures mail.text == message + OFFERS_INTRO + OfferBlocks(offers)
  {
    var text := PlainTextBody(message, offers);
    mail := Email(recipients, ToHeader(recipients), SUBJECT, text, offers);
  }

  /**
   * `mail` is the notification a matching check of `page` sends for an alert
   * whose `emails` field is `emails`: to the alert's recipients, with the
   * `To` header that lists them, the fixed subject, one offer per card in
   * page order, and the stripped heading as the message of the body.
   */
  predicate MailFor(mail: Email, page: Page, emails: string) {
    && page.Response? && page.heading.Some?
    && mail.recipients == Recipients(emails)
    && mail.to == ToHeader(Recipients(emails))
    && mail.subject == SUBJECT
    && |mail.offers| == |page.cards|
    && (forall i :: 0 <= i < |page.cards| ==> Complete(page.cards[i]) && mail.offers[i] == ToOffer(page.cards[i]))
    && mail.text == Strip(page.heading.value) + OFFERS_INTRO + OfferBlocks(mail.offers)
  }

  /**
   * One check of an alert against a fetched page. It reports a match
   * exactly when the match rule holds, and sends one notification exactly
   * then: to the alert's recipients, with the stripped heading as message
   * and one offer per card in page order. Every other path, including each
   * one on which an exception is raised, reports no match and sends nothing.
   */
  method CheckForResults(page: Page, emails: string) returns (found: bool, sent: Option<Email>)
    ensures found <==> Matches(page)
    ensures sent.Some? <==> found
    ensures found ==> MailFor(sent.value, page, emails)
  {
    if page.FetchError? {
      return false, None;
    }
    if page.statusCode == 200 {
      if page.heading.Some? && !ContainsText(page.heading.value, NO_RESULTS_TEXT) {
        var offers := ExtractOffers(page.cards);
        if offers.None? {
          return false, None;
        }
        var message := Strip(page.heading.value);
        var recipients := Recipients(emails);
        var mail := SendEmail(message, offers.value, recipients);
        return true, Some(mail);
      }
    }
    return false, None;
  }

  /** A heading that says nothing was found never matches, wherever the phrase sits in it. */
  lemma NoResultsHeadingNeverMatches(page: Page, i: nat)
    requires page.Response? && page.heading.Some?
    requires OccursAt(page.heading.value, NO_RESULTS_TEXT, i)
    ensures !Matches(page)
  {
    ContainsTextAt(page.heading.value, NO_RESULTS_TEXT, i);
  }

  /**
   * The match rule stated with offsets: status 200, a heading in which the
   * phrase occurs at no offset, and every card readable.
   */
  lemma MatchesByOffsets(page: Page)
    ensures Matches(page) <==>
              && page.Response? && page.statusCode == 200 && page.heading.Some?
              && (forall i: nat :: !OccursAt(page.heading.value, NO_RESULTS_TEXT, i))
              && (forall i :: 0 <= i < |page.cards| ==> Complete(page.cards[i]))
  {
    if page.Response? && page.heading.Some? {
      ContainsTextIffOccurs(page.heading.value, NO_RESULTS_TEXT);
    }
  }
}
