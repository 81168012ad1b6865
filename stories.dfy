/** The story record that flows from the scraper through the selector to the writer. */
module Stories {
  import opened Wrappers
  import opened Json

  /**
   * One article dict: the five keys the scraper fills in, and the
   * `selection_reason` key the selector adds to the chosen one (absent before).
   */
  datatype Story = Story(
    title: string,
    description: string,
    url: string,
    publishedAt: string,
    source: string,
    selectionReason: Option<JsonValue>)
}
