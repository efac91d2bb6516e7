/**
 * The domain records of the dataset generator: an audio clip, a character (speaker identity)
 * owning an ordered list of clips, and the application state.
 */
module Types {
  import opened Wrappers

  /** A duration in seconds as reported by the browser's metadata probe. */
  type Seconds = r: real | r >= 0.0

  /**
   * One ingested clip. `path` is the session-local object URL of the clip's bytes;
   * `duration` and `waveform` are optional (`undefined` when absent).
   */
  datatype AudioFile = AudioFile(
    id: string,
    name: string,
    path: string,
    size: nat,
    duration: Option<Seconds>,
    waveform: Option<seq<real>>)

  /** A speaker identity; `selected` is its export-inclusion flag. */
  datatype Character = Character(
    id: string,
    name: string,
    selected: bool,
    audioFiles: seq<AudioFile>)

  /** All characters in insertion order, plus the id of the focused one (`null` is `None`). */
  datatype AppState = AppState(
    characters: seq<Character>,
    selectedCharacterId: Option<string>)
}
