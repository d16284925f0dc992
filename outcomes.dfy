/**
 * Optional values and the failures the engine raises. Each Error variant
 * stands for one std::runtime_error the source throws (or one failure of an
 * external collaborator), so a thrown exception becomes an Err result.
 */
module Outcomes {

  datatype Option<T> = None | Some(value: T)

  datatype Error =
    | EmptyChoice                           // "Cannot choose from empty vector"
    | NoThemesForRange(rangeKey: string)    // "No themes available for range: <key>"
    | NoThemesWithVideos(rangeKey: string)  // "No themes with videos available for range: <key>"
    | NoThemesForSelection                  // "No themes available for selection"
    | NoVideosInTheme(theme: string)        // "No videos available in theme: <theme>"
    | NoThemesForVerses                     // "No themes available for the specified verse range"
    | DownloadFailed(video: string)         // the object-store download threw
    | OutOfFuel                             // the model's iteration bound ran out (not in the source)

  datatype Result<T> = Ok(value: T) | Err(error: Error)
}
