/** The page root (`App` in src/App.jsx), reduced to the one transition with logic in it:
    passing the intro gate. */
module Root {
  import Music

  class App {
    /** Whether the guest has passed the intro gate. */
    var entered: bool
    /** `musicRef.current`: the music button's handle, absent until it is mounted. */
    var music: Music.MusicButton?

    constructor (music: Music.MusicButton?)
      ensures !entered && this.music == music
    {
      entered := false;
      this.music := music;
    }

    /** `enterInvitation`: ask the music button to play from the start (when it is there),
        then reveal the content, in that order and within the same tap. */
    method EnterInvitation()
      modifies this`entered, music, if music == null then {} else {music.player}
      ensures entered && music == old(music)
      ensures music != null ==> music.player == old(music.player)
      ensures music != null ==> music.Model() == Music.PlayFromStartStep(old(music.Model()))
    {
      if music != null {
        music.PlayFromStart();
      }
      entered := true;
    }
  }
}
