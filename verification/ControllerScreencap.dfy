/**
 The inner `screencap`: it learns from the frames it receives whether the link rewrites
 line feeds, over any sequence of frames.
 */
module ControllerScreencap {
  import opened Options
  import opened ControllerLf

  /** `CR` is declared but never set; it behaves like `LF`. */
  datatype EndOfLine = UnknownYet | CRLF | LF | CR

  /** What is known about the link: its end of line and the size of the last screencap
      that was taken, 0 for none. */
  datatype Link = Link(eol: EndOfLine, generalSize: nat)

  /** Whether a screencap was taken, the text the decoder accepted, and what is known after. */
  datatype Outcome = Outcome(ok: bool, taken: string, link: Link)

  type Decoder = string -> bool

  /** Less than a tenth of the last screencap. */
  predicate TooSmall(link: Link, text: string) {
    10 * |text| < link.generalSize
  }

  /** What the decoder accepts of a received text, tried as the known end of line says. */
  ghost function Taken(eol: EndOfLine, text: string, decode: Decoder): Option<string> {
    var repaired := RemoveCr(text);
    if eol.CRLF? then (if decode(repaired) then Some(repaired) else None)
    else if decode(text) then Some(text)
    else if HasPair(text) && decode(repaired) then Some(repaired)
    else None
  }

  /** The end of line known afterwards: once repairs are on, they stay on as long as there
      is something to repair; they are turned on by a text only decoded after repair. */
  ghost function Learnt(eol: EndOfLine, text: string, decode: Decoder): EndOfLine {
    if eol.CRLF? then (if HasPair(text) then CRLF else LF)
    else if Taken(eol, text, decode).None? then eol
    else if !decode(text) then CRLF
    else if eol.UnknownYet? then LF
    else eol
  }

  /** The whole outcome for a text received. */
  ghost function Received(link: Link, text: string, decode: Decoder): Outcome {
    if text == [] || TooSmall(link, text) then Outcome(false, [], link)
    else
      var eol := Learnt(link.eol, text, decode);
      match Taken(link.eol, text, decode)
      case Some(t) => Outcome(true, t, Link(eol, |t|))
      case None => Outcome(false, [], Link(eol, link.generalSize))
  }

  class Controller {
    var screencapEndOfLine: EndOfLine
    var screencapDataGeneralSize: nat
    var supportSocket: bool
    var serverStarted: bool

    function Known(): Link
      reads this
    {
      Link(screencapEndOfLine, screencapDataGeneralSize)
    }

    predicate SocketUsable()
      reads this
    {
      supportSocket && serverStarted
    }

    constructor ()
      ensures Known() == Link(UnknownYet, 0) && !serverStarted
    {
      screencapEndOfLine, screencapDataGeneralSize := UnknownYet, 0;
      supportSocket, serverStarted := false, false;
    }

    /** `response` is the output of the screencap command, `None` when the command failed. */
    method Screencap(response: Option<string>, decode: Decoder, bySocket: bool) returns (ok: bool, taken: string)
      modifies this`screencapEndOfLine, this`screencapDataGeneralSize
      ensures (bySocket && !old(SocketUsable())) || response.None? ==> !ok && Known() == old(Known())
      ensures (bySocket ==> old(SocketUsable())) && response.Some? ==>
                Outcome(ok, taken, Known()) == Received(old(Known()), response.value, decode)
    {
      taken := [];
      if (!supportSocket || !serverStarted) && bySocket {
        return false, [];
      }
      if response.None? || response.value == [] {
        return false, [];
      }
      var text := response.value;
      var data := new char[|text|](i requires 0 <= i < |text| => text[i]);
      assert data[..] == text;
      if screencapDataGeneralSize != 0 && 10 * data.Length < screencapDataGeneralSize {
        return false, [];
      }
      var size := data.Length;
      var triedConversion := false;
      if screencapEndOfLine == CRLF {
        triedConversion := true;
        var found;
        found, size := ConvertLf(data);
        if !found {
          screencapEndOfLine := LF;
        }
      } else {
        assert data[..size] == text;
      }
      if decode(data[..size]) {
        if screencapEndOfLine == UnknownYet {
          screencapEndOfLine := LF;
        }
      } else {
        if triedConversion {
          return false, [];
        }
        var found;
        found, size := ConvertLf(data);
        if !found {
          return false, [];
        }
        if !decode(data[..size]) {
          return false, [];
        }
        screencapEndOfLine := CRLF;
      }
      screencapDataGeneralSize := size;
      ok, taken := true, data[..size];
    }

    method ClearLfInfo()
      modifies this`screencapEndOfLine
      ensures Known() == old(Known()).(eol := UnknownYet)
    {
      screencapEndOfLine := UnknownYet;
    }
  }

  // ---------------------------------------------------------------- any decoder

  /** For any decoder: what is taken is what it accepts, the received text or its repair; the
      text itself is preferred unless repairs are on. */
  lemma {:induction false} TakenExactly(link: Link, text: string, decode: Decoder)
    ensures var o := Received(link, text, decode);
            && (o.ok <==> text != [] && 10 * |text| >= link.generalSize
                          && if link.eol.CRLF? || !decode(text)
                             then decode(RemoveCr(text)) && (link.eol.CRLF? || HasPair(text)) else true)
            && (o.ok ==> decode(o.taken) && o.link.generalSize == |o.taken|)
            && (o.ok ==> o.taken == text || o.taken == RemoveCr(text))
            && (o.ok && !link.eol.CRLF? && decode(text) ==> o.taken == text)
            && (o.ok && link.eol.CRLF? ==> o.taken == RemoveCr(text))
  {
  }

  /** After a success repairs are on exactly if the repair has changed the text, and the end
      of line is known; after a failure at most needless repairs have been turned off. */
  lemma {:induction false} LearntExactly(link: Link, text: string, decode: Decoder)
    ensures var o := Received(link, text, decode);
            && (o.ok ==> (o.link.eol.CRLF? <==> o.taken != text))
            && (o.ok ==> !o.link.eol.UnknownYet? && (o.link.eol.CR? ==> link.eol.CR?))
            && (o.ok && link.eol.CR? && o.taken == text ==> o.link.eol.CR?)
            && (!o.ok ==> o.link == link || (link.eol.CRLF? && !HasPair(text) && o.link == link.(eol := LF)))
            && (!o.ok && link.eol.CRLF? && text != [] && 10 * |text| >= link.generalSize ==>
                  (o.link == link <==> HasPair(text)))
  {
    RepairChangesPairs(text);
  }

  // ---------------------------------------------------------------- runs

  /** A frame as the device made it, and whether the link rewrites it. */
  datatype Frame = Frame(text: string, rewritten: bool)

  function Delivered(f: Frame): string {
    if f.rewritten then Rewritten(f.text) else f.text
  }

  /** A decoder that accepts the original frame only. */
  function Only(text: string): Decoder {
    t => t == text
  }

  ghost function Capture(link: Link, f: Frame): Outcome {
    Received(link, Delivered(f), Only(f.text))
  }

  /** What is known after all the frames, starting from what was known before. */
  ghost function After(link: Link, frames: seq<Frame>): Link {
    if frames == [] then link
    else
      var n := |frames| - 1;
      Capture(After(link, frames[..n]), frames[n]).link
  }

  /** The outcome for frame i. */
  ghost function OutcomeOf(link: Link, frames: seq<Frame>, i: nat): Outcome
    requires i < |frames|
  {
    Capture(After(link, frames[..i]), frames[i])
  }

  /** A frame that repair would damage. */
  ghost predicate Harmed(f: Frame) {
    !f.rewritten && HasPair(f.text)
  }

  /** One screencap fails exactly when the frame is empty, or what arrives is smaller than a
      tenth of the last screencap, or repairs are on, the link does not rewrite and the frame
      has a pair of its own. Whatever is taken is the original frame; a failure teaches
      nothing. */
  lemma {:induction false} CaptureExact(link: Link, f: Frame)
    ensures var o := Capture(link, f);
            && (o.ok <==> f.text != [] && !TooSmall(link, Delivered(f)) && !(link.eol.CRLF? && Harmed(f)))
            && (o.ok ==> o.taken == f.text && o.link.generalSize == |f.text|)
            && (o.ok ==> (o.link.eol.CRLF? <==> f.rewritten && '\n' in f.text))
            && (!o.ok ==> o.link == link)
  {
    RepairUndoesRewriting(f.text);
    RepairChangesPairs(f.text);
    RepairChangesPairs(Rewritten(f.text));
  }

  /** The shortest frame that fails where nothing is too small. */
  lemma {:induction false} HarmedFrameFails()
    ensures !Capture(Link(CRLF, 0), Frame("\r\n", false)).ok
  {
    CaptureExact(Link(CRLF, 0), Frame("\r\n", false));
    assert PairAt("\r\n", 0);
  }

  // ---------------------------------------------------------------- any frames on any link

  /** Frame k is refused for its size alone. */
  ghost predicate Refused(link: Link, frames: seq<Frame>, k: nat)
    requires k < |frames|
  {
    frames[k].text == [] || TooSmall(After(link, frames[..k]), Delivered(frames[k]))
  }

  /** Repairs are on before frame k because of where the run started or of the frame before. */
  ghost predicate RepairsOn(link: Link, frames: seq<Frame>, k: nat)
    requires k <= |frames|
  {
    if k == 0 then link.eol.CRLF?
    else !Refused(link, frames, k - 1) && frames[k - 1].rewritten && '\n' in frames[k - 1].text
  }

  /** Repairs were on before frame k, and every frame from there to before frame i was refused
      or harmed. */
  ghost predicate OnSince(link: Link, frames: seq<Frame>, k: nat, i: nat)
    requires i <= |frames|
  {
    k <= i && RepairsOn(link, frames, k)
    && forall j :: k <= j < i ==> Refused(link, frames, j) || Harmed(frames[j])
  }

  lemma {:induction false} AfterNext(link: Link, frames: seq<Frame>, i: nat)
    requires i < |frames|
    ensures After(link, frames[..i + 1]) == OutcomeOf(link, frames, i).link
  {
    assert frames[..i + 1][..i] == frames[..i];
  }

  /** When repairs are on before frame i. */
  lemma {:induction false} KnownExactly(link: Link, frames: seq<Frame>, i: nat)
    requires i <= |frames|
    ensures After(link, frames[..i]).eol.CRLF? <==> exists k: nat :: OnSince(link, frames, k, i)
  {
    hide Capture, Harmed, RepairsOn;
    if i == 0 {
      OnAtStart(link, frames);
    } else {
      var last := i - 1;
      KnownExactly(link, frames, last);
      AfterNext(link, frames, last);
      CaptureExact(After(link, frames[..last]), frames[last]);
      OnNext(link, frames, last, i);
      OnHere(link, frames, i);
    }
  }

  lemma {:induction false} OnAtStart(link: Link, frames: seq<Frame>)
    ensures link.eol.CRLF? <==> exists k: nat :: OnSince(link, frames, k, 0)
  {
    assert OnSince(link, frames, 0, 0) <==> link.eol.CRLF?;
  }

  lemma {:induction false} OnHere(link: Link, frames: seq<Frame>, i: nat)
    requires 0 < i <= |frames|
    ensures RepairsOn(link, frames, i) <==>
            !Refused(link, frames, i - 1) && frames[i - 1].rewritten && '\n' in frames[i - 1].text
  {
  }

  lemma {:induction false} OnNext(link: Link, frames: seq<Frame>, i: nat, next: nat)
    requires next == i + 1 <= |frames|
    ensures (exists k: nat :: OnSince(link, frames, k, next)) <==>
            || RepairsOn(link, frames, next)
            || ((Refused(link, frames, i) || Harmed(frames[i])) && exists k: nat :: OnSince(link, frames, k, i))
  {
    hide RepairsOn, Refused, Harmed;
    if RepairsOn(link, frames, next) {
      assert OnSince(link, frames, next, next);
    } else if Refused(link, frames, i) || Harmed(frames[i]) {
      if k: nat :| OnSince(link, frames, k, i) {
        assert OnSince(link, frames, k, next);
      }
    }
    if k: nat :| OnSince(link, frames, k, next) {
      if k < next {
        assert OnSince(link, frames, k, i);
      }
    }
  }

  /** On a link that may rewrite or not from frame to frame, over any frames, a screencap
      fails exactly when it is refused for its size, or comes not rewritten with a pair of
      its own after repairs were turned on and no frame could be taken since. */
  lemma {:induction false} MixedLinkFailsExactly(link: Link, frames: seq<Frame>, i: nat)
    requires i < |frames|
    ensures !OutcomeOf(link, frames, i).ok <==>
            || Refused(link, frames, i)
            || (Harmed(frames[i]) && exists k: nat :: OnSince(link, frames, k, i))
    ensures OutcomeOf(link, frames, i).ok ==> OutcomeOf(link, frames, i).taken == frames[i].text
  {
    hide Capture, Harmed, OnSince;
    KnownExactly(link, frames, i);
    CaptureExact(After(link, frames[..i]), frames[i]);
  }

  // ---------------------------------------------------------------- a link that always rewrites

  /** The size of the last frame taken before frame i. */
  ghost function LastSize(link: Link, frames: seq<Frame>, i: nat): nat
    requires i <= |frames|
  {
    if i == 0 then link.generalSize
    else
      var size := LastSize(link, frames, i - 1);
      var f := frames[i - 1];
      if f.text == [] || 10 * |Rewritten(f.text)| < size then size else |f.text|
  }

  lemma {:induction false} SizeKnown(link: Link, frames: seq<Frame>, i: nat)
    requires i <= |frames| && forall k :: 0 <= k < |frames| ==> frames[k].rewritten
    ensures After(link, frames[..i]).generalSize == LastSize(link, frames, i)
  {
    if i > 0 {
      SizeKnown(link, frames, i - 1);
      AfterNext(link, frames, i - 1);
      CaptureExact(After(link, frames[..i - 1]), frames[i - 1]);
    }
  }

  /** On a link that always rewrites, over any frames and from every state of knowledge, a
      screencap hands the decoder the frame as the device made it, unless the frame is empty
      or arrives smaller than a tenth of the last one taken. */
  lemma {:induction false} RewritingLinkExactly(link: Link, frames: seq<Frame>, i: nat)
    requires i < |frames| && forall k :: 0 <= k < |frames| ==> frames[k].rewritten
    ensures var o := OutcomeOf(link, frames, i);
            && (o.ok <==> frames[i].text != [] && 10 * |Rewritten(frames[i].text)| >= LastSize(link, frames, i))
            && (o.ok ==> o.taken == frames[i].text)
  {
    SizeKnown(link, frames, i);
    CaptureExact(After(link, frames[..i]), frames[i]);
  }

  /** No frame is empty or so small that it is refused for its size. */
  ghost predicate Steady(link: Link, frames: seq<Frame>) {
    forall i :: 0 <= i < |frames| ==>
      && frames[i].text != []
      && 10 * |frames[i].text| >= link.generalSize
      && forall j :: 0 <= j < |frames| ==> 10 * |frames[i].text| >= |frames[j].text|
  }

  lemma {:induction false} SteadySize(link: Link, frames: seq<Frame>, i: nat)
    requires Steady(link, frames) && i <= |frames|
    ensures forall k :: 0 <= k < |frames| ==> 10 * |frames[k].text| >= LastSize(link, frames, i)
  {
    if i > 0 {
      SteadySize(link, frames, i - 1);
    }
  }

  /** So with frames of one size, as a device sends them, every screencap succeeds. */
  lemma {:induction false} RewritingLinkSucceeds(link: Link, frames: seq<Frame>, i: nat)
    requires Steady(link, frames) && forall k :: 0 <= k < |frames| ==> frames[k].rewritten
    requires i < |frames|
    ensures OutcomeOf(link, frames, i).ok && OutcomeOf(link, frames, i).taken == frames[i].text
  {
    SteadySize(link, frames, i);
    RewritingLinkExactly(link, frames, i);
    RepairUndoesRewriting(frames[i].text);
  }
}
