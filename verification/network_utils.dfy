/**
 * NetworkUtils (second generation): whether to fetch the lower-resolution sample images instead
 * of the full-size ones, from the screen density, the metered flag and the connection speed.
 */
module NetworkUtils {
  import opened Wrappers

  /** ConnectivityManager connection types. */
  const TypeMobile: int := 0
  const TypeWifi: int := 1
  const TypeWimax: int := 6

  /** TelephonyManager network subtypes. */
  const NetworkGprs: int := 1
  const NetworkEdge: int := 2
  const NetworkCdma: int := 4
  const NetworkEvdo0: int := 5
  const NetworkEvdoA: int := 6
  const Network1xRtt: int := 7
  const NetworkHspa: int := 10
  const NetworkIden: int := 11
  const NetworkEhrpd: int := 14

  /** Build.VERSION_CODES.JELLY_BEAN: the first release that reports metered networks. */
  const JellyBean: int := 16

  /** The mobile subtypes averaging about 1 Mbps or less. */
  const SlowMobile: set<int> := {Network1xRtt, NetworkCdma, NetworkEdge, NetworkEvdo0, NetworkEvdoA,
                                 NetworkGprs, NetworkHspa, NetworkIden, NetworkEhrpd}

  /** The active network as ConnectivityManager describes it. */
  datatype NetworkInfo = NetworkInfo(netType: int, subtype: int)

  /**
   * The device: whether the display density exceeds 1.0, the platform version, what the
   * connectivity manager says about metering, and the active network (null when there is none).
   */
  datatype Device = Device(highDensity: bool, sdkInt: int, reportsMetered: bool, active: Option<NetworkInfo>)

  /** isConnectionFast: Wi-Fi and WiMAX always; mobile unless a known slow subtype; nothing else. */
  function IsConnectionFast(netType: int, subtype: int): (fast: bool)
    ensures netType == TypeWifi || netType == TypeWimax ==> fast
    ensures netType == TypeMobile ==> (fast <==> subtype !in SlowMobile)
    ensures netType != TypeWifi && netType != TypeWimax && netType != TypeMobile ==> !fast
  {
    if netType == TypeWifi || netType == TypeWimax then true
    else if netType == TypeMobile then
      !(subtype == Network1xRtt || subtype == NetworkCdma || subtype == NetworkEdge || subtype == NetworkEvdo0
        || subtype == NetworkEvdoA || subtype == NetworkGprs || subtype == NetworkHspa || subtype == NetworkIden
        || subtype == NetworkEhrpd)
    else false
  }

  /** isActiveNetworkMetered: only asked from Jelly Bean on; older platforms count as unmetered. */
  function IsActiveNetworkMetered(d: Device): (metered: bool)
    ensures metered ==> d.sdkInt >= JellyBean
    ensures d.sdkInt >= JellyBean ==> (metered <==> d.reportsMetered)
  {
    d.sdkInt >= JellyBean && d.reportsMetered
  }

  /**
   * shouldFetchImageSamples: no on a low-density screen, no on a metered network, and otherwise
   * yes exactly when the connection is fast. Asking a device with no active network for its speed
   * throws.
   */
  function ShouldFetchImageSamples(d: Device): (r: Result<bool>)
    ensures r.Err? <==> d.highDensity && !IsActiveNetworkMetered(d) && d.active.None?
    ensures r.Err? ==> r.error == NullPointer
    ensures r == Ok(true) <==>
              d.highDensity && !IsActiveNetworkMetered(d) && d.active.Some?
              && IsConnectionFast(d.active.value.netType, d.active.value.subtype)
  {
    if !d.highDensity then Ok(false)
    else if IsActiveNetworkMetered(d) then Ok(false)
    else if d.active.None? then Err(NullPointer)
    else if !IsConnectionFast(d.active.value.netType, d.active.value.subtype) then Ok(false)
    else Ok(true)
  }

  /** Subtypes introduced after the code was written get the benefit of the doubt. */
  lemma NewerMobileSubtypesAreFast(subtype: int)
    requires subtype > NetworkEhrpd
    ensures IsConnectionFast(TypeMobile, subtype)
  {
  }

  /** Before Jelly Bean the decision ignores what the platform says about metering. */
  lemma OldPlatformIgnoresMetering(d: Device, reportsMetered: bool)
    requires d.sdkInt < JellyBean
    ensures ShouldFetchImageSamples(d) == ShouldFetchImageSamples(d.(reportsMetered := reportsMetered))
  {
  }

  /** A low-density screen never fetches samples and never looks at the network. */
  lemma LowDensityNeverSamples(d: Device)
    requires !d.highDensity
    ensures ShouldFetchImageSamples(d) == Ok(false)
  {
  }
}
