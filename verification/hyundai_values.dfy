/** Names shared by the Hyundai interface and frame builders. The platform
    table, the fingerprints and the button-code constants live in
    selfdrive/car/hyundai/values.py, which is not part of this model: only
    the platforms the modelled code compares against get a constructor, and
    the button codes are a parameter. */
module HyundaiValues {

  /** Car platforms the modelled code tests for by name. */
  datatype Car =
    | Sonata | SonataH | SonataTurbo | Palisade | SantaFe
    | KonaEv | KiaNiroEv | KiaSeltos | Optima
    | OtherCar(name: string)

  /** The steering-wheel cruise button codes (`Buttons` in the values file);
      0 means no button is pressed. */
  datatype ButtonCodes = ButtonCodes(resAccel: int, setDecel: int, gapDist: int)
}
