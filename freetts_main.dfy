/**
 * The stand-alone FreeTTS driver: how an audio file name is split into a
 * base name and an extension, and which audio player `startup` gives the
 * voice.
 */
module FreeTTSMain {
  import opened Wrappers
  import opened JavaLang
  import opened AudioPlayers

  /** The players `startup` can choose, by the arguments they are made with. */
  datatype Player =
    | MultiFilePlayer(baseName: JString, fileType: FileType)
    | SingleFilePlayer(baseName: JString, fileType: FileType)
    | RawFilePlayer(path: JString)
    | ClipPlayer
    | VoiceDefaultPlayer  // whatever player the voice makes by default
    | NullPlayer

  /** `getExtension`: the text after the last '.', or null when there is no '.'. */
  function Extension(path: JString): (r: Option<JString>)
    ensures r.None? <==> DOT !in path
    ensures r.Some? ==>
      && |r.value| < |path| && r.value == path[|path| - |r.value|..]
      && path[|path| - |r.value| - 1] == DOT && DOT !in r.value
  {
    var index := LastIndexOf(path, DOT);
    if index == -1 then None else Some(path[index + 1..])
  }

  /** `getBasename`: the text before the last '.', or the whole path when there is no '.'. */
  function Basename(path: JString): (r: JString)
    ensures DOT !in path ==> r == path
    ensures DOT in path ==>
      && |r| < |path| && r == path[..|r|] && path[|r|] == DOT
      && forall k :: |r| < k < |path| ==> path[k] != DOT
  {
    var index := LastIndexOf(path, DOT);
    if index == -1 then path else path[..index]
  }

  /** A path with a '.' is its base name, the '.', and its extension. */
  lemma BasenameExtension(path: JString)
    requires DOT in path
    ensures Basename(path) + [DOT] + Extension(path).value == path
  {
    var index := LastIndexOf(path, DOT);
    assert path == path[..index] + [DOT] + path[index + 1..];
  }

  /** The first of `types` whose extension is `ext`; none matches a missing extension. */
  function FirstWithExtension(types: seq<FileType>, ext: Option<JString>): Option<FileType> {
    if types == [] then None
    else if Some(types[0].extension) == ext then Some(types[0])
    else FirstWithExtension(types[1..], ext)
  }

  /**
   * The type found is the first one with the extension, and none is found
   * exactly when no type has it.
   */
  lemma {:induction false} FirstWithExtensionIsFirst(types: seq<FileType>, ext: Option<JString>)
    ensures FirstWithExtension(types, ext).None? <==> forall i :: 0 <= i < |types| ==> Some(types[i].extension) != ext
    ensures FirstWithExtension(types, ext).Some? ==>
      exists i :: 0 <= i < |types| && types[i] == FirstWithExtension(types, ext).value
        && Some(types[i].extension) == ext && forall k :: 0 <= k < i ==> Some(types[k].extension) != ext
  {
    if types == [] {
    } else if Some(types[0].extension) == ext {
      assert types[0] == FirstWithExtension(types, ext).value;
    } else {
      var tail := types[1..];
      FirstWithExtensionIsFirst(tail, ext);
      assert FirstWithExtension(types, ext) == FirstWithExtension(tail, ext);
      assert forall i :: 1 <= i < |types| ==> types[i] == tail[i - 1];
      if FirstWithExtension(tail, ext).Some? {
        var i :| 0 <= i < |tail| && tail[i] == FirstWithExtension(tail, ext).value
          && Some(tail[i].extension) == ext && forall k :: 0 <= k < i ==> Some(tail[k].extension) != ext;
        assert types[i + 1] == tail[i];
        assert forall k :: 0 <= k < i + 1 ==> Some(types[k].extension) != ext;
      }
    }
  }

  /**
   * `getAudioType`: the first of the audio system's file types whose
   * extension is the file's, or null.
   */
  method GetAudioType(file: JString, types: seq<FileType>) returns (r: Option<FileType>)
    ensures r == FirstWithExtension(types, Extension(file))
  {
    var extension := Extension(file);
    var i := 0;
    while i < |types|
      invariant 0 <= i <= |types|
      invariant FirstWithExtension(types, extension) == FirstWithExtension(types[i..], extension)
    {
      assert types[i..][1..] == types[i + 1..];
      if Some(types[i].extension) == extension {
        return Some(types[i]);
      }
      i := i + 1;
    }
    r := None;
  }

  /** The player left in place when a branch fails to make one: the old one, or the null player. */
  function OrNull(p: Option<Player>): Player {
    if p.Some? then p.value else NullPlayer
  }

  /**
   * The driver's settings and the audio players it hands out: `audioPlayer`
   * is the static player shared by all drivers, `voicePlayer` the one the
   * voice was given last.
   */
  class FreeTTS {
    var silent: bool
    var audioFile: Option<JString>
    var multiAudio: bool
    var streamingAudio: bool
    var audioPlayer: Option<Player>
    var voicePlayer: Option<Player>

    constructor (audioPlayer: Option<Player>)
      ensures !silent && audioFile == None && !multiAudio && !streamingAudio
      ensures this.audioPlayer == audioPlayer && voicePlayer == None
    {
      silent := false;
      audioFile := None;
      multiAudio := false;
      streamingAudio := false;
      this.audioPlayer := audioPlayer;
      voicePlayer := None;
    }

    /**
     * `startup`: chooses the player and gives it to the voice. `types` are
     * the audio system's file types, `rawOpens` whether the raw file can be
     * opened, `voiceDefault` what the voice's default player is (an error
     * when it cannot be made, Ok(None) when it is null). A branch that
     * fails keeps the player there was; a missing player becomes the null
     * player, so the voice is always given one.
     */
    method Startup(types: seq<FileType>, rawOpens: bool, voiceDefault: Result<Option<Player>, JavaError>)
      modifies this
      ensures audioPlayer.Some? && voicePlayer == audioPlayer
      ensures silent == old(silent) && audioFile == old(audioFile)
      ensures multiAudio == old(multiAudio) && streamingAudio == old(streamingAudio)
      ensures silent ==> audioPlayer == Some(OrNull(old(audioPlayer)))
      ensures !silent && audioFile.Some? && FirstWithExtension(types, Extension(audioFile.value)).Some? ==>
        var t := FirstWithExtension(types, Extension(audioFile.value)).value;
        var b := Basename(audioFile.value);
        audioPlayer == Some(if multiAudio then MultiFilePlayer(b, t) else SingleFilePlayer(b, t))
      ensures !silent && audioFile.Some? && FirstWithExtension(types, Extension(audioFile.value)).None? ==>
        audioPlayer == Some(if rawOpens then RawFilePlayer(audioFile.value) else OrNull(old(audioPlayer)))
      ensures !silent && audioFile.None? && !streamingAudio ==> audioPlayer == Some(ClipPlayer)
      ensures !silent && audioFile.None? && streamingAudio ==>
        audioPlayer == Some(if voiceDefault.Ok? then OrNull(voiceDefault.value) else OrNull(old(audioPlayer)))
    {
      if !silent {
        if audioFile.Some? {
          var fileType := GetAudioType(audioFile.value, types);
          if fileType.Some? {
            if multiAudio {
              audioPlayer := Some(MultiFilePlayer(Basename(audioFile.value), fileType.value));
            } else {
              audioPlayer := Some(SingleFilePlayer(Basename(audioFile.value), fileType.value));
            }
          } else if rawOpens {
            audioPlayer := Some(RawFilePlayer(audioFile.value));
          }
        } else if !streamingAudio {
          audioPlayer := Some(ClipPlayer);
        } else if voiceDefault.Ok? {
          audioPlayer := voiceDefault.value;
        }
      }
      if audioPlayer.None? {
        audioPlayer := Some(NullPlayer);
      }
      voicePlayer := audioPlayer;
    }
  }
}
