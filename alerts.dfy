/**
  The `Alert` record of AppNotifier: the text a notification shows and,
  optionally, a sound player that was loaded when the alert was defined.
 */
module Alerts {
  import opened Wrappers

  /** The sound specification that means "this alert plays no sound". */
  const NoSound: string := "none"

  /**
    What loading the sound file at a path does. The audio library is not
    modelled: whoever builds alerts supplies this outcome for each path.
    `FileNotFound` is the one failure the program catches; `LoadFailed`
    stands for every other exception the loader can raise.
   */
  datatype SoundLoad = Loaded | FileNotFound | LoadFailed

  /** `sound` is `Some(path)` when a sound player for `path` was loaded. */
  datatype Alert = Alert(message: string, sound: Option<string>)

  datatype AlertFailure =
    | MissingSoundFile(path: string)
    | SoundLoadFault(path: string)

  /** Whether a sound specification yields an alert at all. */
  predicate SoundAccepted(soundFile: string, load: string -> SoundLoad) {
    soundFile == NoSound || load(soundFile) == Loaded
  }

  /**
    The `Alert(message, soundFile)` constructor: "none" means no sound,
    anything else is loaded at once, and a load failure is raised to the caller.
   */
  function NewAlert(message: string, soundFile: string, load: string -> SoundLoad): (r: Result<Alert, AlertFailure>)
    ensures r.Ok? <==> SoundAccepted(soundFile, load)
    ensures r.Ok? ==> r.value.message == message
    ensures r.Ok? ==> (r.value.sound == None <==> soundFile == NoSound)
    ensures r.Ok? && r.value.sound.Some? ==> r.value.sound.value == soundFile
    ensures r.Err? ==> r.error.path == soundFile
    ensures r.Err? ==> (r.error.MissingSoundFile? <==> load(soundFile) == FileNotFound)
  {
    if soundFile != NoSound then
      match load(soundFile)
      case Loaded => Ok(Alert(message, Some(soundFile)))
      case FileNotFound => Err(MissingSoundFile(soundFile))
      case LoadFailed => Err(SoundLoadFault(soundFile))
    else
      Ok(Alert(message, None))
  }
}
