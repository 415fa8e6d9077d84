/**
 * Viewer3DNodeScreenshot: the list of magnification levels offered for a window size, the selected
 * magnification and format, and the numbering of the shots taken.
 */
module Screenshot {
  import opened Decimal
  import opened EventBus

  /** MAG_LEVEL: the number of magnification levels offered. */
  const MagLevel := 5

  /** One line of the magnification list: the level, then the width and height the shot will have. */
  function ResolutionEntry(level: int, w: int, h: int): string {
    IntToString(level) + " - " + IntToString(w * level) + "x" + IntToString(h * level)
  }

  /** resolutionString: one entry per magnification level 1 .. MAG_LEVEL, in increasing order. */
  function ResolutionString(w: int, h: int): (r: seq<string>)
    ensures |r| == MagLevel
    ensures forall k :: 0 <= k < |r| ==>
              r[k] == IntToString(k + 1) + " - " + IntToString(w * (k + 1)) + "x" + IntToString(h * (k + 1))
  {
    seq(MagLevel, k requires 0 <= k < MagLevel => ResolutionEntry(k + 1, w, h))
  }

  /** A one-digit level prints as that digit. */
  lemma LevelDigit(level: int)
    requires 1 <= level <= MagLevel
    ensures IntToString(level) == [DigitChar(level)]
  {
  }

  /** Each entry starts with the one digit of its level. */
  lemma EntryLevel(w: int, h: int, k: int)
    requires 0 <= k < MagLevel
    ensures ResolutionString(w, h)[k][..1] == IntToString(k + 1) == [DigitChar(k + 1)]
  {
    LevelDigit(k + 1);
    var rest := " - " + IntToString(w * (k + 1)) + "x" + IntToString(h * (k + 1));
    assert ResolutionString(w, h)[k] == [DigitChar(k + 1)] + rest;
  }

  /** The entries are pairwise different: each names its own level first. */
  lemma ResolutionEntriesDistinct(w: int, h: int, i: int, j: int)
    requires 0 <= i < j < MagLevel
    ensures ResolutionString(w, h)[i] != ResolutionString(w, h)[j]
  {
    EntryLevel(w, h, i);
    EntryLevel(w, h, j);
  }

  /** The magnification that selecting list entry index gives: the level that entry names. */
  function Magnification(index: int): (m: int)
    ensures 0 <= index < MagLevel ==> 1 <= m <= MagLevel
    ensures index == -1 ==> m == 0
  {
    index + 1
  }

  /** Selecting an entry of the list gives the magnification that entry names, whatever the window size. */
  lemma SelectedEntryNamesMagnification(w: int, h: int, index: int)
    requires 0 <= index < MagLevel
    ensures ParseInt(ResolutionString(w, h)[index][..1]) == Magnification(index)
  {
    EntryLevel(w, h, index);
    IntRoundTrip(index + 1);
  }

  datatype Format = Png | Jpeg | Bmp

  /** A file written by takeShot: its running number, format and magnification (the path is left out). */
  datatype Shot = Shot(number: int, format: Format, magnification: int)

  /** The vtkRenderWindow a shot is taken of. */
  class RenderWindow {
    constructor ()
    {
    }
  }

  class Screenshooter {
    const events: EventService
    var window: RenderWindow?
    var magnification: int
    var imageCounter: int
    var format: Format
    /** The files written so far, in order. */
    var shots: seq<Shot>

    /** Every shot carries the counter value it was taken with: 0, 1, 2, ... */
    ghost predicate Valid()
      reads this
    {
      imageCounter == |shots| && forall i :: 0 <= i < |shots| ==> shots[i].number == i
    }

    /** The constructor; without an event service the component makes its own. */
    constructor (service: EventService?)
      ensures service != null ==> events == service
      ensures service == null ==> fresh(events) && events.published == []
      ensures window == null
      ensures magnification == 1 && imageCounter == 0 && format == Png && shots == []
      ensures Valid()
    {
      if service != null {
        events := service;
      } else {
        events := new EventService();
      }
      window := null;
      magnification := 1;
      imageCounter := 0;
      format := Png;
      shots := [];
    }

    /** setWindow: a null window is ignored. */
    method SetWindow(window: RenderWindow?)
      modifies this
      ensures this.window == if window != null then window else old(this.window)
      ensures magnification == old(magnification) && imageCounter == old(imageCounter)
      ensures format == old(format) && shots == old(shots)
    {
      if window != null {
        this.window := window;
      }
    }

    /** The magnification list's listener: a settled selection sets the magnification. */
    method SelectMagnification(adjusting: bool, selectedIndex: int)
      modifies this
      ensures magnification == if adjusting then old(magnification) else Magnification(selectedIndex)
      ensures window == old(window) && imageCounter == old(imageCounter)
      ensures format == old(format) && shots == old(shots)
    {
      if !adjusting {
        magnification := selectedIndex + 1;
      }
    }

    /** The format list's listener: entries 0, 1, 2 are PNG, JPEG, BMP; any other index keeps the format. */
    method SelectFormat(adjusting: bool, selectedIndex: int)
      modifies this
      ensures format == if adjusting then old(format)
                        else if selectedIndex == 0 then Png
                        else if selectedIndex == 1 then Jpeg
                        else if selectedIndex == 2 then Bmp
                        else old(format)
      ensures window == old(window) && magnification == old(magnification)
      ensures imageCounter == old(imageCounter) && shots == old(shots)
    {
      if !adjusting {
        if selectedIndex == 0 {
          format := Png;
        } else if selectedIndex == 1 {
          format := Jpeg;
        } else if selectedIndex == 2 {
          format := Bmp;
        }
      }
    }

    /**
     * takeShot: without a window nothing is written and the counter stays; with one, a file numbered
     * with the counter is written, the counter goes up by one and the event is published.
     */
    method TakeShot()
      requires Valid()
      modifies this, events
      ensures Valid()
      ensures window == old(window) && magnification == old(magnification) && format == old(format)
      ensures old(window) == null ==>
                imageCounter == old(imageCounter) && shots == old(shots) && events.published == old(events.published)
      ensures old(window) != null ==>
                && imageCounter == old(imageCounter) + 1
                && shots == old(shots) + [Shot(old(imageCounter), format, magnification)]
                && events.published == old(events.published) + [ScreenshotTaken]
    {
      if window != null {
        var number := imageCounter;
        imageCounter := imageCounter + 1;
        shots := shots + [Shot(number, format, magnification)];
        events.Publish(ScreenshotTaken);
      }
    }
  }
}
