/** The post shape that crawlers emit and ingest takes. */
module RawPosts {
  import opened Basics

  datatype RawPost = RawPost(
    title: string, magnet: string, source: string, sourceId: string, url: string,
    publishedAt: Instant, sizeBytes: int)
}
