/**
 * The decision logic of the property card (components/PropertyCard.tsx):
 * which contact channels are shown, the link address and caption of each,
 * and whether a link opens in a new tab.
 */
module PropertyCard {

  import opened Wrappers
  import JsValues

  /** The contact channels a property may list. */
  datatype ContactType = Telegram | WhatsApp | Line | Phone | Email

  /** One `[channel, value]` pair of the contacts object, in the object's own order. */
  datatype ContactEntry = ContactEntry(channel: ContactType, value: Option<string>)

  /** A rendered contact link. */
  datatype ContactLink = ContactLink(href: string, caption: string, target: Option<string>, rel: Option<string>)

  /** `getContactHref`: mail and phone get their URL scheme, messenger links are used as they are. */
  function ContactHref(channel: ContactType, value: string): (href: string)
    ensures channel == Email ==> href == "mailto:" + value
    ensures channel == Phone ==> href == "tel:" + value
    ensures channel !in {Email, Phone} ==> href == value
  {
    if channel == Email then "mailto:" + value
    else if channel == Phone then "tel:" + value
    else value
  }

  /** Within one channel, different values give different addresses. */
  lemma ContactHrefInjective(channel: ContactType, a: string, b: string)
    requires ContactHref(channel, a) == ContactHref(channel, b)
    ensures a == b
  {
    var h := ContactHref(channel, a);
    var n := |h| - |a|;
    assert a == h[n..] && b == h[n..];
  }

  /** `getContactLabel`: the caption of a link, with email as the last resort. */
  function ContactLabel(channel: ContactType): (caption: string)
    ensures channel == Telegram ==> caption == "Telegram"
    ensures channel == WhatsApp ==> caption == "WhatsApp"
    ensures channel == Line ==> caption == "LINE"
    ensures channel == Phone ==> caption == "Телефон"
    ensures channel == Email ==> caption == "Email"
  {
    if channel == Telegram then "Telegram"
    else if channel == WhatsApp then "WhatsApp"
    else if channel == Line then "LINE"
    else if channel == Phone then "Телефон"
    else "Email"
  }

  /** Every channel has its own caption, so a link is found by its caption alone. */
  lemma ContactLabelInjective(a: ContactType, b: ContactType)
    requires ContactLabel(a) == ContactLabel(b)
    ensures a == b
  {
  }

  /** The `target` attribute: phone and mail links stay in the page, the rest open a new tab. */
  function LinkTarget(channel: ContactType): (target: Option<string>)
    ensures target.None? <==> channel in {Phone, Email}
    ensures target.Some? ==> target.value == "_blank"
  {
    if channel == Phone || channel == Email then None else Some("_blank")
  }

  /** The `rel` attribute, present exactly when the link opens a new tab. */
  function LinkRel(channel: ContactType): (rel: Option<string>)
    ensures rel.None? <==> channel in {Phone, Email}
    ensures rel.Some? ==> rel.value == "noreferrer noopener"
  {
    if channel == Phone || channel == Email then None else Some("noreferrer noopener")
  }

  /**
   * A link stays in the page exactly when its address carries a scheme of
   * its own (`tel:` or `mailto:`), and a new tab always comes with
   * `noreferrer noopener`.
   */
  lemma NewTabExactlyForMessengerLinks(channel: ContactType, value: string)
    ensures LinkTarget(channel).None? <==> ContactHref(channel, value) != value
    ensures LinkTarget(channel).None? <==> LinkRel(channel).None?
    ensures LinkTarget(channel).Some? ==>
      LinkTarget(channel) == Some("_blank") && LinkRel(channel) == Some("noreferrer noopener")
  {
    if channel == Phone || channel == Email {
      assert |ContactHref(channel, value)| > |value|;
    }
  }

  /** `Boolean(value)`: a channel is shown when its value is present and not empty. */
  predicate IsShown(e: ContactEntry)
    ensures IsShown(e) <==> e.value.Some? && JsValues.Truthy(JsValues.Str(e.value.value))
  {
    e.value.Some? && e.value.value != ""
  }

  /** `visibleContacts`: the entries with a non-empty value, in their order. */
  function VisibleContacts(entries: seq<ContactEntry>): (visible: seq<ContactEntry>)
    ensures |visible| <= |entries|
    ensures forall e :: e in visible ==> e in entries && IsShown(e)
    ensures forall e :: e in entries && IsShown(e) ==> e in visible
  {
    if entries == [] then []
    else if IsShown(entries[0]) then [entries[0]] + VisibleContacts(entries[1..])
    else VisibleContacts(entries[1..])
  }

  /**
   * Filtering commutes with concatenation: the shown entries of the first
   * part come before those of the second, so the filter keeps the order.
   */
  lemma {:induction false} VisibleContactsKeepsOrder(a: seq<ContactEntry>, b: seq<ContactEntry>)
    ensures VisibleContacts(a + b) == VisibleContacts(a) + VisibleContacts(b)
  {
    if a == [] {
      assert a + b == b;
    } else {
      assert (a + b)[1..] == a[1..] + b;
      VisibleContactsKeepsOrder(a[1..], b);
    }
  }

  /** No contacts, no links; a listing with only empty values shows none either. */
  lemma NoVisibleContactsWithoutValues(entries: seq<ContactEntry>)
    requires forall e :: e in entries ==> !IsShown(e)
    ensures VisibleContacts(entries) == []
  {
    if VisibleContacts(entries) != [] {
      assert VisibleContacts(entries)[0] in VisibleContacts(entries);
    }
  }

  /** The link for a shown contact; nothing for one without a value. */
  function RenderContact(e: ContactEntry): (link: Option<ContactLink>)
    ensures link.Some? <==> IsShown(e)
  {
    if e.value.None? || e.value.value == "" then None
    else Some(ContactLink(ContactHref(e.channel, e.value.value), ContactLabel(e.channel),
                          LinkTarget(e.channel), LinkRel(e.channel)))
  }

  /** The links rendered for a list of entries; entries that render to nothing are skipped. */
  function RenderContacts(visible: seq<ContactEntry>): (links: seq<ContactLink>)
    ensures |links| <= |visible|
    ensures (forall e :: e in visible ==> IsShown(e)) ==>
      |links| == |visible| && forall i :: 0 <= i < |visible| ==> Some(links[i]) == RenderContact(visible[i])
  {
    if visible == [] then []
    else match RenderContact(visible[0])
      case None => RenderContacts(visible[1..])
      case Some(link) => [link] + RenderContacts(visible[1..])
  }

  /**
   * The contact links of the card: one per shown entry, in order, each
   * with the address, caption and tab behaviour of its channel.
   */
  function ContactLinks(entries: seq<ContactEntry>): (links: seq<ContactLink>)
    ensures |links| == |VisibleContacts(entries)|
    ensures forall i :: 0 <= i < |links| ==>
      var e := VisibleContacts(entries)[i];
      && e.value.Some? && e.value.value != ""
      && links[i].href == ContactHref(e.channel, e.value.value)
      && links[i].caption == ContactLabel(e.channel)
      && links[i].target == LinkTarget(e.channel)
      && links[i].rel == LinkRel(e.channel)
  {
    var visible := VisibleContacts(entries);
    assert forall i :: 0 <= i < |visible| ==> visible[i] in visible;
    RenderContacts(visible)
  }

  /** The contacts of the card's own tests, in the order of its fixture. */
  function ExampleContacts(): seq<ContactEntry> {
    [ContactEntry(Telegram, Some("https://t.me/seaview_phuket")),
     ContactEntry(Phone, Some("+66-81-245-1100")),
     ContactEntry(Email, Some("sales@seaview-phuket.example"))]
  }

  /** Every contact of the fixture has a value, so all of them are shown, in order. */
  lemma ExampleContactsAllVisible()
    ensures VisibleContacts(ExampleContacts()) == ExampleContacts()
  {
    var entries := ExampleContacts();
    assert VisibleContacts(entries[2..]) == entries[2..];
    assert VisibleContacts(entries[1..]) == entries[1..] by {
      assert entries[1..][1..] == entries[2..];
    }
  }

  /**
   * In the card's test fixture telegram, phone and mail show, with their
   * captions, and so no link is captioned WhatsApp or LINE.
   */
  lemma ContactLinksExample()
    ensures |ContactLinks(ExampleContacts())| == 3
    ensures ContactLinks(ExampleContacts())[0] ==
      ContactLink("https://t.me/seaview_phuket", "Telegram", Some("_blank"), Some("noreferrer noopener"))
    ensures ContactLinks(ExampleContacts())[1] ==
      ContactLink("tel:" + "+66-81-245-1100", "Телефон", None, None)
    ensures ContactLinks(ExampleContacts())[2] ==
      ContactLink("mailto:" + "sales@seaview-phuket.example", "Email", None, None)
    ensures ContactLinks([]) == []
  {
    ExampleContactsAllVisible();
  }
}
