/** A SubRip subtitle entry as the scripts build it with
    `srt.Subtitle(index, start, end, content)`, before `srt.compose` turns
    the entries into text. */
module SubRip {

  /** Entry `index` shows `content` from `start` to `end`. */
  datatype Entry = Entry(index: nat, start: int, end: int, content: string)
}
