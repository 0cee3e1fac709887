/** The lightbox of the product page in `public/js/public.js`: the list of full-size
    images, the shown index, the counter and the two arrows, opening from the main image,
    the keyboard and the horizontal swipe. A touch's `screenX` is an integer here. */
module PublicLightbox {
  import opened Wrappers
  import opened Strings

  /** The minimum horizontal distance of a swipe, in pixels. */
  const SwipeThreshold := 50

  /** `allImages.findIndex(src => src.endsWith(path))`: the first image whose address ends
      with `path`, or -1 when none does. */
  function FindIndex(images: seq<string>, path: string): (r: int)
    ensures -1 <= r < |images|
    ensures r >= 0 ==> EndsWith(images[r], path) && forall k :: 0 <= k < r ==> !EndsWith(images[k], path)
    ensures r == -1 <==> forall k :: 0 <= k < |images| ==> !EndsWith(images[k], path)
  {
    if images == [] then -1
    else if EndsWith(images[0], path) then 0
    else
      var t := FindIndex(images[1..], path);
      assert forall k :: 1 <= k < |images| ==> images[k] == images[1..][k - 1];
      if t < 0 then -1 else t + 1
  }

  /** The index the lightbox opens at: the matching image, else the first. */
  function StartIndex(images: seq<string>, path: string): (i: nat)
    ensures images != [] ==> i < |images|
    ensures (exists k :: 0 <= k < |images| && EndsWith(images[k], path)) ==> EndsWith(images[i], path)
    ensures (forall k :: 0 <= k < |images| ==> !EndsWith(images[k], path)) ==> i == 0
  {
    var k := FindIndex(images, path);
    if k >= 0 then k else 0
  }

  /** The counter text `${i + 1} / ${n}`. */
  function CounterText(i: nat, n: nat): (r: string)
    ensures EndsWith(r, " / " + NatToDecimal(n))
  {
    NatToDecimal(i + 1) + " / " + NatToDecimal(n)
  }

  /** The counter text begins with the position counted from one, then " / ", then the
      number of images. */
  lemma CounterTextStartsWithPosition(i: nat, n: nat)
    ensures CounterText(i, n)[..|NatToDecimal(i + 1)|] == NatToDecimal(i + 1)
    ensures CounterText(i, n)[|NatToDecimal(i + 1)|..] == " / " + NatToDecimal(n)
  {
    var d := NatToDecimal(i + 1);
    assert CounterText(i, n) == d + (" / " + NatToDecimal(n));
  }

  /** The position is the leading number of the counter text. */
  lemma CounterTextLeadingNumber(i: nat, n: nat)
    ensures ParseInt(CounterText(i, n)) == Some(i + 1)
  {
    var d := NatToDecimal(i + 1);
    var s := CounterText(i, n);
    CounterTextStartsWithPosition(i, n);
    assert s[|d|] == s[|d|..][0];
    ParseIntOfDigitRun(d, s);
    DigitsValueOfDecimal(i + 1);
  }

  /** A string that starts with a run of digits followed by a non-digit parses as the
      value of that run. */
  lemma ParseIntOfDigitRun(d: string, s: string)
    requires d != [] && |d| < |s| && s[..|d|] == d && !IsDigit(s[|d|])
    requires forall k :: 0 <= k < |d| ==> IsDigit(d[k])
    ensures ParseInt(s) == Some(DigitsValue(d))
  {
    assert s[0] == d[0];
    assert TrimStart(s) == s;
    DigitPrefixOfPrefix(d, s);
  }

  /** Two different positions, or two different image counts, never show the same counter
      text: the counter identifies what is shown. */
  lemma CounterTextInjective(i: nat, n: nat, j: nat, m: nat)
    requires CounterText(i, n) == CounterText(j, m)
    ensures i == j && n == m
  {
    CounterTextLeadingNumber(i, n);
    CounterTextLeadingNumber(j, m);
    CounterTextStartsWithPosition(i, n);
    CounterTextStartsWithPosition(j, m);
    var d := NatToDecimal(i + 1);
    assert " / " + NatToDecimal(n) == " / " + NatToDecimal(m);
    assert NatToDecimal(n) == (" / " + NatToDecimal(n))[3..];
    assert NatToDecimal(m) == (" / " + NatToDecimal(m))[3..];
    ParseIntOfDecimal(n);
    ParseIntOfDecimal(m);
  }

  /** A digit run followed by a non-digit is the digit prefix. */
  lemma {:induction false} DigitPrefixOfPrefix(d: string, s: string)
    requires |d| < |s| && s[..|d|] == d && !IsDigit(s[|d|])
    requires forall k :: 0 <= k < |d| ==> IsDigit(d[k])
    ensures DigitPrefix(s) == d
  {
    if d != [] {
      assert s[0] == d[0];
      assert s[1..][..|d| - 1] == d[1..];
      DigitPrefixOfPrefix(d[1..], s[1..]);
    }
  }

  /** What `handleSwipe` does with a start and an end position. */
  datatype Gesto = Ninguno | Anterior | Siguiente

  /** `handleSwipe`'s decision: nothing for a touch that did not start on the image
      (`touchStartX === 0`), the previous image for a move right of more than the
      threshold, the next one for a move left of more than it, and nothing otherwise. */
  function Swipe(start: int, end: int): (g: Gesto)
    ensures g == Anterior <==> start != 0 && end - start > SwipeThreshold
    ensures g == Siguiente <==> start != 0 && end - start < -SwipeThreshold
  {
    if start == 0 then Ninguno
    else if end - start > SwipeThreshold then Anterior
    else if end - start < -SwipeThreshold then Siguiente
    else Ninguno
  }

  class Lightbox {
    /** `allImages` and `currentIndex`. */
    var images: seq<string>
    var currentIndex: int
    /** What the lightbox shows. */
    var src: string
    var counter: string
    var counterVisible: bool
    var prevVisible: bool
    var nextVisible: bool
    var abierto: bool
    /** The swipe positions. */
    var touchStartX: int
    var touchEndX: int

    /** The shown index is one of the images' (or the initial 0 when there are none). */
    ghost predicate Valid()
      reads this`images, this`currentIndex
    {
      0 <= currentIndex && (currentIndex < |images| || currentIndex == 0)
    }

    /** The images are the thumbnails' full-size addresses, else the main image's alone,
        else none. */
    constructor (thumbnails: seq<string>, mainImage: Option<string>)
      ensures Valid() && currentIndex == 0 && !abierto && touchStartX == 0
      ensures images == if thumbnails != [] then thumbnails else if mainImage.Some? then [mainImage.value] else []
    {
      images := if thumbnails != [] then thumbnails else if mainImage.Some? then [mainImage.value] else [];
      currentIndex := 0;
      src, counter := "", "";
      counterVisible, prevVisible, nextVisible, abierto := true, true, true, false;
      touchStartX, touchEndX := 0, 0;
    }

    /** `showImage(index)`: outside the list nothing happens; otherwise the image, its
        counter, and arrows hidden exactly at the ends. */
    method ShowImage(index: int)
      requires Valid()
      modifies this
      ensures Valid() && images == old(images)
      ensures !(0 <= index < |images|) ==> unchanged(this)
      ensures 0 <= index < |images| ==>
                && currentIndex == index && src == images[index]
                && counter == CounterText(index, |images|)
                && (prevVisible <==> index != 0) && (nextVisible <==> index != |images| - 1)
      ensures counterVisible == old(counterVisible) && abierto == old(abierto)
      ensures touchStartX == old(touchStartX) && touchEndX == old(touchEndX)
    {
      if index < 0 || index >= |images| {
        return;
      }
      currentIndex := index;
      src := images[currentIndex];
      counter := CounterText(currentIndex, |images|);
      prevVisible := currentIndex != 0;
      nextVisible := currentIndex != |images| - 1;
    }

    /** What `showImage(currentIndex)` leaves on screen: the image at the index, its
        counter, and arrows hidden exactly at the ends. */
    ghost predicate Muestra()
      reads this`images, this`currentIndex, this`src, this`counter, this`prevVisible, this`nextVisible
    {
      && 0 <= currentIndex < |images| && src == images[currentIndex]
      && counter == CounterText(currentIndex, |images|)
      && (prevVisible <==> currentIndex != 0) && (nextVisible <==> currentIndex != |images| - 1)
    }

    /** The previous arrow, `showImage(currentIndex - 1)`: one back, showing that image,
        except at the first image, where nothing changes. */
    method Prev()
      requires Valid()
      modifies this
      ensures Valid() && images == old(images)
      ensures old(currentIndex) > 0 ==> currentIndex == old(currentIndex) - 1 && Muestra()
      ensures old(currentIndex) == 0 ==> unchanged(this)
      ensures counterVisible == old(counterVisible) && abierto == old(abierto)
      ensures touchStartX == old(touchStartX) && touchEndX == old(touchEndX)
    {
      ShowImage(currentIndex - 1);
    }

    /** The next arrow, `showImage(currentIndex + 1)`: one forward, showing that image,
        except at the last image, where nothing changes. */
    method Next()
      requires Valid()
      modifies this
      ensures Valid() && images == old(images)
      ensures old(currentIndex) + 1 < |images| ==> currentIndex == old(currentIndex) + 1 && Muestra()
      ensures old(currentIndex) + 1 >= |images| ==> unchanged(this)
      ensures counterVisible == old(counterVisible) && abierto == old(abierto)
      ensures touchStartX == old(touchStartX) && touchEndX == old(touchEndX)
    {
      ShowImage(currentIndex + 1);
    }

    /** A click on the main image, whose address has the path `path`: with several images
        it shows the counter and the matching image (the first if none matches) with its
        arrows; with one or none it shows that image and hides the counter and both arrows. */
    method Open(path: string)
      requires Valid()
      modifies this
      ensures Valid() && images == old(images) && abierto
      ensures |images| > 1 ==> counterVisible && currentIndex == StartIndex(images, path) && Muestra()
      ensures |images| <= 1 ==>
                && currentIndex == old(currentIndex) && !counterVisible && !prevVisible && !nextVisible
                && src == (if images != [] then images[0] else "") && counter == old(counter)
      ensures touchStartX == old(touchStartX) && touchEndX == old(touchEndX)
    {
      var startIndex := FindIndex(images, path);
      abierto := true;
      if |images| > 1 {
        counterVisible := true;
        ShowImage(if startIndex >= 0 then startIndex else 0);
      } else {
        src := if images != [] then images[0] else "";
        counterVisible, prevVisible, nextVisible := false, false, false;
      }
    }

    /** `closeLightbox`: hides the lightbox and nothing else. */
    method Close()
      modifies this`abierto
      ensures !abierto
    {
      abierto := false;
    }

    /** The keyboard, only while it is open: the right arrow clicks next, the left arrow
        clicks previous, Escape closes, and any other key does nothing. */
    method KeyDown(key: string)
      requires Valid()
      modifies this
      ensures Valid() && images == old(images)
      ensures !old(abierto) ==> unchanged(this)
      ensures old(abierto) && key == "ArrowRight" && old(currentIndex) + 1 < |images| ==>
                currentIndex == old(currentIndex) + 1 && Muestra() && abierto
      ensures old(abierto) && key == "ArrowLeft" && old(currentIndex) > 0 ==>
                currentIndex == old(currentIndex) - 1 && Muestra() && abierto
      ensures old(abierto) && key == "ArrowRight" && old(currentIndex) + 1 >= |images| ==> unchanged(this)
      ensures old(abierto) && key == "ArrowLeft" && old(currentIndex) == 0 ==> unchanged(this)
      ensures old(abierto) && key == "Escape" ==>
                && !abierto && currentIndex == old(currentIndex) && src == old(src) && counter == old(counter)
                && prevVisible == old(prevVisible) && nextVisible == old(nextVisible)
      ensures old(abierto) && key != "ArrowRight" && key != "ArrowLeft" && key != "Escape" ==> unchanged(this)
      ensures counterVisible == old(counterVisible) && touchStartX == old(touchStartX) && touchEndX == old(touchEndX)
    {
      if abierto {
        if key == "ArrowRight" {
          Next();
        }
        if key == "ArrowLeft" {
          Prev();
        }
        if key == "Escape" {
          Close();
        }
      }
    }

    /** `touchstart`: records the position when the touch is on the image. */
    method TouchStart(onImage: bool, x: int)
      modifies this
      ensures touchStartX == if onImage then x else old(touchStartX)
      ensures images == old(images) && currentIndex == old(currentIndex) && touchEndX == old(touchEndX)
    {
      if onImage {
        touchStartX := x;
      }
    }

    /** The part of the screen a swipe can change: the index, the image, the counter and
        the arrows. */
    ghost function Vista(): (int, string, string, bool, bool)
      reads this`currentIndex, this`src, this`counter, this`prevVisible, this`nextVisible
    {
      (currentIndex, src, counter, prevVisible, nextVisible)
    }

    /** `handleSwipe`: ignored when no start was recorded; otherwise clicks previous or
        next as `Swipe` decides (which shows that image, unless already at that end) and
        clears the start. */
    method HandleSwipe()
      requires Valid()
      modifies this
      ensures Valid() && images == old(images)
      ensures old(touchStartX) == 0 ==> unchanged(this)
      ensures touchStartX == 0 && touchEndX == old(touchEndX)
      ensures counterVisible == old(counterVisible) && abierto == old(abierto)
      ensures Swipe(old(touchStartX), old(touchEndX)) == Ninguno ==> Vista() == old(Vista())
      ensures Swipe(old(touchStartX), old(touchEndX)) == Anterior && old(currentIndex) > 0 ==>
                currentIndex == old(currentIndex) - 1 && Muestra()
      ensures Swipe(old(touchStartX), old(touchEndX)) == Anterior && old(currentIndex) == 0 ==>
                Vista() == old(Vista())
      ensures Swipe(old(touchStartX), old(touchEndX)) == Siguiente && old(currentIndex) + 1 < |images| ==>
                currentIndex == old(currentIndex) + 1 && Muestra()
      ensures Swipe(old(touchStartX), old(touchEndX)) == Siguiente && old(currentIndex) + 1 >= |images| ==>
                Vista() == old(Vista())
    {
      if touchStartX == 0 {
        return;
      }
      var swipeDistance := touchEndX - touchStartX;
      if swipeDistance > SwipeThreshold {
        Prev();
      } else if swipeDistance < -SwipeThreshold {
        Next();
      }
      touchStartX := 0;
    }

    /** `touchend`: on the image, records the position and handles the swipe. */
    method TouchEnd(onImage: bool, x: int)
      requires Valid()
      modifies this
      ensures Valid() && images == old(images)
      ensures !onImage ==> unchanged(this)
      ensures onImage ==> touchEndX == x && touchStartX == 0
      ensures counterVisible == old(counterVisible) && abierto == old(abierto)
      ensures onImage && Swipe(old(touchStartX), x) == Ninguno ==> Vista() == old(Vista())
      ensures onImage && Swipe(old(touchStartX), x) == Anterior && old(currentIndex) > 0 ==>
                currentIndex == old(currentIndex) - 1 && Muestra()
      ensures onImage && Swipe(old(touchStartX), x) == Anterior && old(currentIndex) == 0 ==>
                Vista() == old(Vista())
      ensures onImage && Swipe(old(touchStartX), x) == Siguiente && old(currentIndex) + 1 < |images| ==>
                currentIndex == old(currentIndex) + 1 && Muestra()
      ensures onImage && Swipe(old(touchStartX), x) == Siguiente && old(currentIndex) + 1 >= |images| ==>
                Vista() == old(Vista())
    {
      if onImage {
        touchEndX := x;
        HandleSwipe();
      }
    }
  }
}
