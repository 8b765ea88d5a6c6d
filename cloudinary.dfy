/**
 * The image URL builder of `lib/cloudinary.ts` (`buildCloudinaryUrl`): a delivery URL with
 * a format, a quality and an optional width transformation. The cloud name, read from the
 * environment in the source, is a parameter.
 */
module Cloudinary {
  import opened Wrappers
  import opened Text

  /** The options object; `None` is a property left undefined. Widths are integers. */
  datatype ImageOptions = ImageOptions(width: Option<int>, quality: Option<string>, format: Option<string>)

  /** The pieces a delivery URL names. */
  datatype UrlParts = UrlParts(cloudName: string, transformations: string, publicId: string)

  const Host := "https://res.cloudinary.com/"

  /** An unset environment variable is interpolated as `undefined`. */
  function CloudNameText(cloudName: Option<string>): string {
    if cloudName.Some? then cloudName.value else "undefined"
  }

  /** The destructuring defaults: `quality` and `format` are `auto` when undefined. */
  function QualityOf(options: ImageOptions): string {
    if options.quality.Some? then options.quality.value else "auto"
  }

  function FormatOf(options: ImageOptions): string {
    if options.format.Some? then options.format.value else "auto"
  }

  /** `if (width)`: a width is used when it is given and not zero. */
  predicate HasWidth(options: ImageOptions) {
    options.width.Some? && options.width.value != 0
  }

  /** The transformation segment: format and quality, then the width when there is one. */
  function Transformations(options: ImageOptions): (t: string)
    ensures IsPrefixOf("f_" + FormatOf(options) + ",q_" + QualityOf(options), t)
  {
    var base := "f_" + FormatOf(options) + ",q_" + QualityOf(options);
    if HasWidth(options) then base + ",w_" + IntToString(options.width.value) else base
  }

  /** `buildCloudinaryUrl`. */
  function BuildCloudinaryUrl(cloudName: Option<string>, publicId: string, options: ImageOptions): (url: string)
    ensures IsPrefixOf(Host, url)
  {
    Host + CloudNameText(cloudName) + "/image/upload/" + Transformations(options) + "/" + publicId
  }

  // ---------------------------------------------------------------------------
  // Reading a URL back

  /** Splits a delivery URL into the cloud name, the transformation segment and the public
      id (which may itself contain `/`). */
  function ReadUrl(url: string): Option<UrlParts> {
    if !IsPrefixOf(Host, url) then None
    else
      var parts := Split(url[|Host|..], '/');
      if |parts| < 5 || parts[1] != "image" || parts[2] != "upload" then None
      else Some(UrlParts(parts[0], parts[3], Join(parts[4..], "/")))
  }

  /** Reads a transformation segment back as its format, quality and width. */
  function ReadTransformations(t: string): Option<(string, string, Option<int>)> {
    var parts := Split(t, ',');
    if |parts| < 2 || |parts| > 3 then None
    else if !IsPrefixOf("f_", parts[0]) || !IsPrefixOf("q_", parts[1]) then None
    else if |parts| == 2 then Some((parts[0][2..], parts[1][2..], None))
    else if !IsPrefixOf("w_", parts[2]) || NumberValue(parts[2][2..]).None? then None
    else Some((parts[0][2..], parts[1][2..], Some(NumberValue(parts[2][2..]).value)))
  }

  lemma {:induction false} NumberValueOfIntToString(n: int)
    ensures NumberValue(IntToString(n)) == Some(n)
  {
    var digits := NatToString(if n < 0 then -n else n);
    DigitsValueOfNatToString(if n < 0 then -n else n);
    var s := IntToString(n);
    TrimUnchanged(s);
    if n < 0 {
      assert s == "-" + digits;
      assert s[1..] == digits;
      assert !AllDigits(s) by {
        assert !IsDigit(s[0]);
      }
    }
  }

  /** A segment without a width reads back as its format and quality. */
  lemma {:induction false} ReadTwo(format: string, quality: string)
    requires ',' !in format && ',' !in quality
    ensures ReadTransformations("f_" + format + ",q_" + quality) == Some((format, quality, None))
  {
    var f := "f_" + format;
    var q := "q_" + quality;
    assert ',' !in f && ',' !in q;
    assert f[2..] == format && q[2..] == quality;
    assert f + ",q_" + quality == Join([f, q], ",") by {
      assert [f, q][1..] == [q];
    }
    SplitJoin([f, q], ',');
  }

  /** A segment with a width reads back as its format, quality and width. */
  lemma {:induction false} ReadThree(format: string, quality: string, width: int)
    requires ',' !in format && ',' !in quality
    ensures ReadTransformations("f_" + format + ",q_" + quality + ",w_" + IntToString(width))
            == Some((format, quality, Some(width)))
  {
    var f := "f_" + format;
    var q := "q_" + quality;
    var n := IntToString(width);
    var w := "w_" + n;
    assert ',' !in n by {
      forall i | 0 <= i < |n| ensures n[i] != ',' {
        assert n[i] in n;
      }
    }
    assert ',' !in f && ',' !in q && ',' !in w;
    assert f[2..] == format && q[2..] == quality && w[2..] == n;
    assert Join([q, w], ",") == q + "," + w by {
      assert [q, w][1..] == [w];
    }
    assert Join([f, q, w], ",") == f + "," + (q + "," + w) by {
      assert [f, q, w][1..] == [q, w];
    }
    assert f + ",q_" + quality + ",w_" + n == f + "," + (q + "," + w);
    SplitJoin([f, q, w], ',');
    NumberValueOfIntToString(width);
  }

  /** Every segment reads back as the options it was built from: the defaults where a value
      was undefined, and the width only when it is set and not zero. */
  lemma {:induction false} TransformationsReadBack(options: ImageOptions)
    requires ',' !in FormatOf(options) && ',' !in QualityOf(options)
    ensures ReadTransformations(Transformations(options))
            == Some((FormatOf(options), QualityOf(options), if HasWidth(options) then options.width else None))
  {
    if HasWidth(options) {
      ReadThree(FormatOf(options), QualityOf(options), options.width.value);
    } else {
      ReadTwo(FormatOf(options), QualityOf(options));
    }
  }

  lemma {:induction false} NoSlashInTransformations(options: ImageOptions)
    requires '/' !in FormatOf(options) && '/' !in QualityOf(options)
    ensures '/' !in Transformations(options)
  {
    if HasWidth(options) {
      var n := IntToString(options.width.value);
      forall i | 0 <= i < |n| ensures n[i] != '/' {
        assert n[i] in n;
      }
    }
  }

  lemma {:induction false} SplitFour(a: string, b: string, c: string, d: string, p: string)
    requires '/' !in a && '/' !in b && '/' !in c && '/' !in d
    ensures Split(a + "/" + b + "/" + c + "/" + d + "/" + p, '/') == [a, b, c, d] + Split(p, '/')
  {
    var s3 := d + "/" + p;
    var s2 := c + "/" + s3;
    var s1 := b + "/" + s2;
    assert a + "/" + b + "/" + c + "/" + d + "/" + p == a + ['/'] + s1;
    SplitAppend(d, p, '/');
    SplitAppend(c, s3, '/');
    SplitAppend(b, s2, '/');
    SplitAppend(a, s1, '/');
  }

  /** The path after the host splits into the cloud name, `image`, `upload`, the segment and
      the public id's own pieces. */
  lemma {:induction false} PathPieces(cloud: string, t: string, publicId: string)
    requires '/' !in cloud && '/' !in t
    ensures var parts := Split(cloud + "/image/upload/" + t + "/" + publicId, '/');
      && |parts| >= 5 && parts[0] == cloud && parts[1] == "image" && parts[2] == "upload"
      && parts[3] == t && Join(parts[4..], "/") == publicId
  {
    var rest := cloud + "/image/upload/" + t + "/" + publicId;
    assert rest == cloud + "/" + "image" + "/" + "upload" + "/" + t + "/" + publicId;
    SplitFour(cloud, "image", "upload", t, publicId);
    var parts := Split(rest, '/');
    assert parts[4..] == Split(publicId, '/');
    JoinSplit(publicId, '/');
  }

  /** The URL names the cloud, the transformation segment and the public id, in that order,
      under `image/upload`. */
  lemma {:induction false} UrlReadsBack(cloudName: Option<string>, publicId: string, options: ImageOptions)
    requires '/' !in CloudNameText(cloudName)
    requires '/' !in FormatOf(options) && '/' !in QualityOf(options)
    ensures ReadUrl(BuildCloudinaryUrl(cloudName, publicId, options))
            == Some(UrlParts(CloudNameText(cloudName), Transformations(options), publicId))
  {
    var cloud := CloudNameText(cloudName);
    var t := Transformations(options);
    NoSlashInTransformations(options);
    var url := BuildCloudinaryUrl(cloudName, publicId, options);
    var rest := cloud + "/image/upload/" + t + "/" + publicId;
    assert url == Host + rest;
    assert url[|Host|..] == rest;
    PathPieces(cloud, t, publicId);
  }

  /** With no options the URL asks for automatic format and quality and no width. */
  lemma {:induction false} DefaultsAreAuto(cloudName: Option<string>, publicId: string)
    ensures BuildCloudinaryUrl(cloudName, publicId, ImageOptions(None, None, None))
            == Host + CloudNameText(cloudName) + "/image/upload/f_auto,q_auto/" + publicId
  {
    assert Transformations(ImageOptions(None, None, None)) == "f_auto,q_auto";
  }
}
