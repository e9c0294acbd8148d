/** The timeline's record, with the field set that apps/umbreon-mobile/src/timeline.rs
    builds and apps/umbreon-mobile/src/storage.rs persists. */
module Items {
  import opened Wrappers

  /** Where an item came from. */
  datatype SourceKind = Atom | RssHub | Custom

  datatype FeedItem = FeedItem(
    id: string,
    title: string,
    summary: string,
    fullContent: string,
    summarized: bool,
    source: SourceKind,
    publishedAt: string,
    publishedTs: int,
    link: string,
    author: string,
    avatarUrl: Option<string>,
    tags: seq<string>)

  /** The sort key of the timeline. */
  function PublishedTs(item: FeedItem): int {
    item.publishedTs
  }
}
