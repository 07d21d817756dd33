/** Small input checks next to the booking engine: the upload extension
    whitelist (`allowed_file`), the order of the password checks of
    registration and reset, and the active-flag toggle of a barber. */
module Validation {
  import opened Common

  // ---------------------------------------------------------------------
  // allowed_file

  /** Index of the last '.' of `s`, as `rsplit(".", 1)` splits there. */
  function LastDot(s: string): (r: Option<nat>)
    ensures r.None? <==> '.' !in s
    ensures r.Some? ==> r.value < |s| && s[r.value] == '.' && '.' !in s[r.value + 1..]
  {
    if s == [] then None
    else if s[|s| - 1] == '.' then Some(|s| - 1)
    else
      var r := LastDot(s[..|s| - 1]);
      assert s == s[..|s| - 1] + [s[|s| - 1]];
      if r.Some? then
        assert s[r.value + 1..] == s[..|s| - 1][r.value + 1..] + [s[|s| - 1]];
        r
      else r
  }

  /** `str.lower()` on the ASCII capitals. (No other character lowers to a
      letter of the whitelist, so the check below is exact.) */
  function LowerChar(c: char): char
  {
    if 'A' <= c <= 'Z' then (c as int + 32) as char else c
  }

  function Lower(s: string): (r: string)
    ensures |r| == |s|
  {
    seq(|s|, i requires 0 <= i < |s| => LowerChar(s[i]))
  }

  const AllowedExtensions: set<string> := {"png", "jpg", "jpeg", "gif"}

  /** `allowed_file`: the name has a dot and what follows its last dot,
      lower-cased, is a whitelisted extension. */
  function AllowedFile(filename: string): bool
  {
    match LastDot(filename)
    case None => false
    case Some(i) => Lower(filename[i + 1..]) in AllowedExtensions
  }

  /** The extension is taken after the LAST dot: any prefix, then a dot,
      then a dot-free tail is accepted exactly when the tail is. */
  lemma {:induction false} AllowedFileSplit(nombre: string, ext: string)
    requires '.' !in ext
    ensures AllowedFile(nombre + ['.'] + ext) <==> Lower(ext) in AllowedExtensions
  {
    var s := nombre + ['.'] + ext;
    var i := |nombre|;
    assert s[i] == '.';
    assert s[i + 1..] == ext;
    var r := LastDot(s);
    assert r.value == i;
  }

  /** A name without a dot, such as "png" itself, is refused. */
  lemma AllowedFileNeedsDot(filename: string)
    requires '.' !in filename
    ensures !AllowedFile(filename)
  {
  }

  /** Case does not matter: an upper-case extension is accepted. */
  lemma AllowedFileUpperCase()
    ensures AllowedFile("FOTO.PNG")
  {
    assert "FOTO" + ['.'] + "PNG" == "FOTO.PNG";
    AllowedFileSplit("FOTO", "PNG");
    var l := Lower("PNG");
    assert l[0] == 'p' && l[1] == 'n' && l[2] == 'g';
    assert l == "png";
  }

  /** A double extension is judged by its last part. */
  lemma AllowedFileLastPart()
    ensures !AllowedFile("foto.png.exe")
  {
    assert "foto.png" + ['.'] + "exe" == "foto.png.exe";
    AllowedFileSplit("foto.png", "exe");
    var l := Lower("exe");
    assert |l| == 3 && l[0] == 'e';
    assert "png"[0] == 'p' && "jpg"[0] == 'j' && "gif"[0] == 'g' && |"jpeg"| == 4;
  }

  // ---------------------------------------------------------------------
  // passwords

  datatype Clave = ClaveAceptada | NoCoinciden | MuyCorta

  /** The two checks of `registro` and `restablecer`, mismatch first. */
  function ValidarClave(password: string, confirmacion: string): (r: Clave)
    ensures r == ClaveAceptada <==> password == confirmacion && |password| >= 6
    ensures r == NoCoinciden <==> password != confirmacion
  {
    if password != confirmacion then NoCoinciden
    else if |password| < 6 then MuyCorta
    else ClaveAceptada
  }

  // ---------------------------------------------------------------------
  // cambiar_estado_barbero

  /** `1 if estado == 0 else 0`. */
  function Alternar(estado: int): (r: int)
    ensures r == 0 || r == 1
    ensures r == 1 <==> estado == 0
  {
    if estado == 0 then 1 else 0
  }

  /** On the flags the table holds, toggling twice restores the flag, and
      any other stored value is switched off. */
  lemma AlternarInvolucion(estado: int)
    ensures (estado == 0 || estado == 1) ==> Alternar(Alternar(estado)) == estado
    ensures (estado != 0 && estado != 1) ==> Alternar(estado) == 0 && Alternar(Alternar(estado)) == 1
  {
  }
}
