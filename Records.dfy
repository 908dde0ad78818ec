/**
 * The dictionaries `to_dict` produces, as values. The content kind of a
 * record is its constructor (`Topic` for content_kinds.TOPIC, `Video` for
 * content_kinds.VIDEO); the license is kept as an opaque value.
 */
module Records {
  import opened Wrappers

  /** `get_license(licenses.CC_BY, copyright_holder=...).as_dict()`, not interpreted further. */
  datatype License = License(licenseId: string, copyrightHolder: string)

  const COPYRIGHT_HOLDER: string := "University College of Science and Technology"
  const AUTHOR: string := "University College of Science and Technology"
  const LICENSE: License := License("CC BY", COPYRIGHT_HOLDER)

  /** One entry of a video record's `files` list. */
  datatype FileRecord =
    | VideoFile(path: string)                            // file_type = VIDEO
    | SubtitleFile(youtubeId: string, language: string)  // file_type = SUBTITLES_FILE

  /** A rendered node. Both kinds carry the `source_id` a parent keys them by. */
  datatype Record =
    | Topic(sourceId: string, title: Option<string>, description: Option<string>,
            language: string, author: string, license: License, children: seq<Record>)
    | Video(sourceId: string, title: Option<string>, description: Option<string>,
            author: string, files: seq<FileRecord>, language: string, license: License)
}
