/**
  The records that flow through the fanlink identifier-resolution pipeline.

  A release read from the catalogue is a `Song`.  The first pass clones it
  into a `LabelledSong` (slug, duplicate flag, label id filled in); the second
  pass clones that into a `ResolvedSong` carrying the final song number.

  In the catalogue `label_id` and `song_number` may be missing.  A missing
  `label_id` and 0 are both falsy, and every test of the label id treats them
  alike; the song-number test `!finalNumber || finalNumber < 1` does the same.
  Both are therefore represented here by 0.  The sort comparator
  `a.song_number - b.song_number` does tell them apart (a missing number gives
  `NaN`); that difference is not modelled.

  Label names are always strings, and ids and song numbers are integers
  within JavaScript's safe-integer range.
 */
module Records {

  /** Stands for JavaScript's `-Infinity` result of `Math.max()` on no arguments. */
  datatype Option<T> = None | Some(value: T)

  /** One entry of the song catalogue. */
  datatype Song = Song(
    labelName: string,
    labelId: int,        // 0: absent or zero ("unassigned")
    songNumber: int,     // 0: absent; every value below 1 is invalid
    songTitle: string,
    artist: string,
    cover: string,
    links: map<string, string>)

  /** A song after label-conflict resolution: `song.labelId` is the resolved id. */
  datatype LabelledSong = LabelledSong(song: Song, normalizedLabel: string, isDuplicateLabel: bool)

  /** A song after song-number conflict resolution. */
  datatype ResolvedSong = ResolvedSong(labelled: LabelledSong, finalSongNumber: int)
}
