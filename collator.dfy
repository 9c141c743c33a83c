/** The batch collator (`BlipCollator.__call__`, and `collate_fn`, which does the same):
    images are loaded in batch order, texts are taken in batch order, both are encoded
    together by the processor, and `labels` is a copy of `input_ids`. Image loading and the
    processor are parameters (`loadImage`, `encode`). */
module Collator {
  import opened Results
  import opened Dataset

  /** What the processor returns for a list of images and a list of texts. */
  datatype Encoding<Pixels, Ids> = Encoding(pixelValues: Pixels, inputIds: Ids, attentionMask: Ids)

  /** A model-ready batch: the encoding plus the training targets. */
  datatype Batch<Pixels, Ids> = Batch(pixelValues: Pixels, inputIds: Ids, attentionMask: Ids, labels: Ids)

  /** `load_image_rgb` raised on this image path. */
  datatype CollateError = ImageUnreadable(path: string)

  /** `[load_image_rgb(s.image_path) for s in batch]`: the images in batch order, or the
      failure of the first image that cannot be opened. */
  function LoadImages<Image>(batch: seq<Sample>, loadImage: string -> Option<Image>)
    : (r: Result<seq<Image>, CollateError>)
    ensures r.Ok? ==> |r.value| == |batch|
                      && forall i :: 0 <= i < |batch| ==> loadImage(batch[i].imagePath) == Some(r.value[i])
    ensures r.Err? ==> exists i :: 0 <= i < |batch|
                        && loadImage(batch[i].imagePath).None?
                        && r.error == ImageUnreadable(batch[i].imagePath)
                        && forall j :: 0 <= j < i ==> loadImage(batch[j].imagePath).Some?
  {
    if batch == [] then Ok([])
    else
      match loadImage(batch[0].imagePath)
      case None =>
        assert loadImage(batch[0].imagePath).None?;
        Err(ImageUnreadable(batch[0].imagePath))
      case Some(image) =>
        var rest := LoadImages(batch[1..], loadImage);
        if rest.Err? then
          assert forall i :: 0 <= i < |batch[1..]| ==> batch[1..][i] == batch[i + 1];
          var i :| 0 <= i < |batch[1..]|
                   && loadImage(batch[1..][i].imagePath).None?
                   && rest.error == ImageUnreadable(batch[1..][i].imagePath)
                   && forall j :: 0 <= j < i ==> loadImage(batch[1..][j].imagePath).Some?;
          assert forall j :: 0 <= j < i + 1 ==> loadImage(batch[j].imagePath).Some?;
          Err(rest.error)
        else
          Ok([image] + rest.value)
  }

  /** `[s.text for s in batch]`. */
  function Texts(batch: seq<Sample>): (texts: seq<string>)
    ensures |texts| == |batch| && forall i :: 0 <= i < |batch| ==> texts[i] == batch[i].text
  {
    seq(|batch|, i requires 0 <= i < |batch| => batch[i].text)
  }

  /** One collation: fails exactly when some image cannot be loaded; otherwise the encoding of
      the batch's images and texts, both in batch order, with `labels` equal to `input_ids`. */
  function Collate<Image, Pixels, Ids>(
    batch: seq<Sample>,
    loadImage: string -> Option<Image>,
    encode: (seq<Image>, seq<string>) -> Encoding<Pixels, Ids>)
    : (r: Result<Batch<Pixels, Ids>, CollateError>)
    ensures r.Ok? <==> forall i :: 0 <= i < |batch| ==> loadImage(batch[i].imagePath).Some?
    ensures r.Ok? ==> r.value.labels == r.value.inputIds
    ensures r.Ok? ==>
              var enc := encode(LoadImages(batch, loadImage).value, Texts(batch));
              r.value.pixelValues == enc.pixelValues
              && r.value.inputIds == enc.inputIds
              && r.value.attentionMask == enc.attentionMask
  {
    match LoadImages(batch, loadImage)
    case Err(e) => Err(e)
    case Ok(images) =>
      var inputs := encode(images, Texts(batch));
      Ok(Batch(inputs.pixelValues, inputs.inputIds, inputs.attentionMask, inputs.inputIds))
  }
}
