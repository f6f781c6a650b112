/** The records the repository stores and the image search returns. */
module Data {

  /**
   * A shopping-list row. The price is kept as the text the user typed: the
   * app parses it to a float, which this model does not represent.
   */
  datatype ShoppingItem = ShoppingItem(name: string, amount: int, priceText: string, imageUrl: string)

  /** One image-search hit, reduced to the URL the list shows. */
  datatype ImageResult = ImageResult(previewUrl: string)

  datatype ImageResponse = ImageResponse(hits: seq<ImageResult>, total: int, totalHits: int)
}
