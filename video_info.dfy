/**
 * The values every video-processing script takes from its command line and its start-up
 * time, and copies into each metadata record it stores.
 */
module VideoDetails {
  /** Video name, video id, course, section (command-line arguments) and creation timestamp. */
  datatype VideoInfo = VideoInfo(videoName: string, videoId: string, course: string, section: string, createdAt: string)
}
