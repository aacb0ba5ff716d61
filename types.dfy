/**
 * The rows the content API delivers. Every field is carried through the client
 * untouched; only a handful are read by the screens.
 */
module Types {
  import opened Wrappers

  datatype SiteConfigRow = SiteConfigRow(
    id: int,
    brand_name: string,
    brand_subtitle: string,
    brand_est: string,
    brand_address: string,
    brand_email: string,
    brand_phone: string,
    logo_url: string,
    hero_headline: string,
    hero_body: string,
    hero_image_url: string,
    hero_image_fallback_url: string,
    live_video_url: string,
    fallback_video_url: string,
    broadcast_name: string,
    broadcast_date: string,
    broadcast_time: string,
    about_text: string,
    donations_title: string,
    donations_body: string,
    donations_details: string)

  datatype EventKind = OneOff | Recurring

  datatype EventRow = EventRow(
    id: string,
    title: string,
    kind: EventKind,
    event_date: string,
    event_time: string,
    when_text: string,
    note: string,
    created_at: string)

  datatype ProgramRow = ProgramRow(
    id: string,
    title: string,
    grades: string,
    description: string,
    days: string,
    time: string,
    note: string,
    created_at: string)

  datatype ContactRow = ContactRow(
    id: string,
    role: string,
    name: string,
    email: string,
    phone: string,
    created_at: string)

  datatype GalleryRow = GalleryRow(
    id: string,
    title: string,
    image_url: string,
    created_at: string)

  datatype FooterLinkRow = FooterLinkRow(
    id: string,
    link_label: string,  // `label` in the row; a reserved word in Dafny
    url: string,
    sort_order: int,
    created_at: string)

  datatype AnnouncementStatus = Draft | Published

  datatype AnnouncementCategoryRow = AnnouncementCategoryRow(
    id: string,
    name: string,
    slug: string,
    created_at: string)

  /** `pinned` arrives either as a number (0/1) or as a boolean. */
  datatype Pinned = PinnedNumber(n: int) | PinnedFlag(b: bool)

  datatype AnnouncementRow = AnnouncementRow(
    id: string,
    title: string,
    slug: string,
    content_html: string,
    excerpt: string,
    status: AnnouncementStatus,
    pinned: Pinned,
    publish_at: Option<string>,
    created_by: string,
    created_at: string,
    updated_at: string,
    categories: Option<seq<AnnouncementCategoryRow>>,
    featured_image_url: Option<string>)
}
