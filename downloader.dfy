/** The per-data-type settings of the downloader: which remote dataset to
    open, the EPSG code of its geographic coordinates and its variables. */
module Downloader {
  import opened Outcomes

  datatype Settings = Settings(datasetId: string, gcsEpsg: int, variables: seq<string>)

  /** Only "Waves" and "Sea Level" are configured; any other data type leaves
      the settings unset. */
  function SettingsFor(dataType: string): (r: Option<Settings>)
    ensures r.Some? <==> dataType == "Waves" || dataType == "Sea Level"
    ensures r.Some? ==> r.value.gcsEpsg == 4326
    ensures dataType == "Waves" ==> r.value.variables == ["VHM0", "VTPK", "VMDR"]
    ensures dataType == "Sea Level" ==> r.value.variables == ["zos"]
  {
    if dataType == "Waves" then
      Some(Settings("cmems_mod_ibi_wav_anfc_0.027deg_PT1H-i", 4326, ["VHM0", "VTPK", "VMDR"]))
    else if dataType == "Sea Level" then
      Some(Settings("cmems_mod_ibi_phy_anfc_0.027deg-2D_PT1H-m", 4326, ["zos"]))
    else None
  }
}
